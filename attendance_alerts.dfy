/**
 * `_build_alerts`: the rule-based anomaly score per employee.
 *
 * The frame is grouped by `(empId, empName)` with `dropna=False`. pandas visits the groups in
 * sorted key order, missing values last, and keeps the rows of each group in frame order. Each
 * group gets a score from five rules; those scoring at least 3 become alerts, which are sorted
 * by score (stable, descending) and cut to the first 10.
 */
module AttendanceAlerts {
  import opened Wrappers
  import opened PyStr
  import opened PyList
  import opened Ranking
  import opened AttendanceFrame

  // ---------------------------------------------------------------------------
  // Group keys and their order
  // ---------------------------------------------------------------------------

  /** Python's `str < str`: code point by code point, a proper prefix first. */
  predicate StrLess(a: string, b: string)
  {
    if a == [] then b != []
    else b != [] && (a[0] < b[0] || (a[0] == b[0] && StrLess(a[1..], b[1..])))
  }

  lemma {:induction false} StrLessIrreflexive(a: string)
    ensures !StrLess(a, a)
  {
    if a != [] {
      StrLessIrreflexive(a[1..]);
    }
  }

  lemma {:induction false} StrLessTransitive(a: string, b: string, c: string)
    requires StrLess(a, b) && StrLess(b, c)
    ensures StrLess(a, c)
  {
    if a != [] && a[0] == b[0] && b[0] == c[0] {
      StrLessTransitive(a[1..], b[1..], c[1..]);
    }
  }

  lemma {:induction false} StrLessTotal(a: string, b: string)
    requires a != b
    ensures StrLess(a, b) || StrLess(b, a)
  {
    if a != [] && b != [] && a[0] == b[0] {
      assert a == [a[0]] + a[1..] && b == [b[0]] + b[1..];
      StrLessTotal(a[1..], b[1..]);
    }
  }

  datatype GroupKey = GroupKey(empId: Option<string>, empName: Option<string>)

  /** Missing values sort after every text. */
  predicate OptLess(a: Option<string>, b: Option<string>)
  {
    a.Some? && (b.None? || StrLess(a.value, b.value))
  }

  predicate KeyLess(a: GroupKey, b: GroupKey)
  {
    OptLess(a.empId, b.empId) || (a.empId == b.empId && OptLess(a.empName, b.empName))
  }

  lemma OptLessOrder(a: Option<string>, b: Option<string>, c: Option<string>)
    ensures !OptLess(a, a)
    ensures OptLess(a, b) && OptLess(b, c) ==> OptLess(a, c)
    ensures a != b ==> OptLess(a, b) || OptLess(b, a)
  {
    if a.Some? {
      StrLessIrreflexive(a.value);
      if b.Some? && a.value != b.value {
        StrLessTotal(a.value, b.value);
      }
      if b.Some? && c.Some? && OptLess(a, b) && OptLess(b, c) {
        StrLessTransitive(a.value, b.value, c.value);
      }
    }
  }

  /** The key order is a strict total order. */
  lemma KeyLessOrder(a: GroupKey, b: GroupKey, c: GroupKey)
    ensures !KeyLess(a, a)
    ensures KeyLess(a, b) && KeyLess(b, c) ==> KeyLess(a, c)
    ensures a != b ==> KeyLess(a, b) || KeyLess(b, a)
  {
    OptLessOrder(a.empId, b.empId, c.empId);
    OptLessOrder(a.empName, b.empName, c.empName);
    OptLessOrder(b.empId, a.empId, c.empId);
    OptLessOrder(a.empId, c.empId, b.empId);
    OptLessOrder(b.empName, a.empName, c.empName);
  }

  function KeyOf(r: Row): GroupKey
  {
    GroupKey(r.empId, r.empName)
  }

  predicate StrictlySorted(keys: seq<GroupKey>)
  {
    forall i, j :: 0 <= i < j < |keys| ==> KeyLess(keys[i], keys[j])
  }

  /** Adds `k` to a sorted key list unless it is already there. */
  function InsertKey(k: GroupKey, keys: seq<GroupKey>): seq<GroupKey>
  {
    if keys == [] then [k]
    else if k == keys[0] then keys
    else if KeyLess(k, keys[0]) then [k] + keys
    else [keys[0]] + InsertKey(k, keys[1..])
  }

  lemma {:induction false} InsertKeySorted(k: GroupKey, keys: seq<GroupKey>)
    requires StrictlySorted(keys)
    ensures StrictlySorted(InsertKey(k, keys))
    ensures forall x :: x in InsertKey(k, keys) <==> x == k || x in keys
  {
    if keys != [] && k != keys[0] && !KeyLess(k, keys[0]) {
      assert StrictlySorted(keys[1..]);
      InsertKeySorted(k, keys[1..]);
      KeyLessOrder(k, keys[0], k);
      var r := InsertKey(k, keys);
      forall j | 0 < j < |r|
        ensures KeyLess(keys[0], r[j])
      {
        if r[j] != k {
          assert r[j] in keys[1..];
          var m :| 0 <= m < |keys[1..]| && keys[1..][m] == r[j];
          assert keys[m + 1] == r[j];
        }
      }
      forall i, j | 0 <= i < j < |r|
        ensures KeyLess(r[i], r[j])
      {
        if i > 0 {
          assert r[i] == InsertKey(k, keys[1..])[i - 1];
          assert r[j] == InsertKey(k, keys[1..])[j - 1];
        }
      }
    } else if keys != [] && k != keys[0] {
      var r := InsertKey(k, keys);
      forall i, j | 0 <= i < j < |r|
        ensures KeyLess(r[i], r[j])
      {
        if i == 0 && j > 1 {
          KeyLessOrder(k, keys[0], keys[j - 1]);
        }
      }
    }
  }

  /** The groups `groupby(["empId", "empName"], dropna=False)` visits, in its order. */
  function GroupKeys(rows: seq<Row>): seq<GroupKey>
  {
    if rows == [] then [] else InsertKey(KeyOf(rows[|rows| - 1]), GroupKeys(rows[..|rows| - 1]))
  }

  /** Every key occurs once, in ascending order, and the keys are exactly those of the rows. */
  lemma {:induction false} GroupKeysExact(rows: seq<Row>)
    ensures StrictlySorted(GroupKeys(rows))
    ensures forall k :: k in GroupKeys(rows) <==> exists r :: r in rows && KeyOf(r) == k
  {
    if rows != [] {
      var init := rows[..|rows| - 1];
      GroupKeysExact(init);
      InsertKeySorted(KeyOf(rows[|rows| - 1]), GroupKeys(init));
      assert rows == init + [rows[|rows| - 1]];
      forall k | k in GroupKeys(rows)
        ensures exists r :: r in rows && KeyOf(r) == k
      {
        if k != KeyOf(rows[|rows| - 1]) {
          var r :| r in init && KeyOf(r) == k;
          assert r in rows;
        }
      }
    }
  }

  /** The rows of one group, in frame order. */
  function Group(rows: seq<Row>, k: GroupKey): (g: seq<Row>)
    ensures forall r :: r in g <==> r in rows && KeyOf(r) == k
  {
    if rows == [] then []
    else (if KeyOf(rows[0]) == k then [rows[0]] else []) + Group(rows[1..], k)
  }

  // ---------------------------------------------------------------------------
  // The score of one group
  // ---------------------------------------------------------------------------

  /** `(g["workStatus"] == status).sum()`. A frame without the column holds `None` there, so
      the `"workStatus" in g` guard gives the same 0. */
  function StatusCount(g: seq<Row>, status: string): nat
  {
    if g == [] then 0 else (if g[0].workStatus == Some(status) then 1 else 0) + StatusCount(g[1..], status)
  }

  /** `((g["workType"] == "NIGHT") & g["checkOutDt"].isna()).sum()` */
  function NightNoCheckout(g: seq<Row>): nat
  {
    if g == [] then 0
    else (if g[0].workType == Some("NIGHT") && g[0].checkOut.None? then 1 else 0) + NightNoCheckout(g[1..])
  }

  function NightCount(g: seq<Row>): nat
  {
    if g == [] then 0 else (if g[0].workType == Some("NIGHT") then 1 else 0) + NightCount(g[1..])
  }

  function UnpaidSum(g: seq<Row>): int
  {
    if g == [] then 0 else g[0].unpaid + UnpaidSum(g[1..])
  }

  function OvertimeSum(g: seq<Row>): int
  {
    if g == [] then 0 else g[0].overtime + OvertimeSum(g[1..])
  }

  datatype AlertCounts = AlertCounts(absent: nat, nightNoCheckout: nat, late: nat, unpaid: int, overtime: int)

  function CountsOf(g: seq<Row>): AlertCounts
  {
    AlertCounts(StatusCount(g, "ABSENT"), NightNoCheckout(g), StatusCount(g, "LATE"), UnpaidSum(g), OvertimeSum(g))
  }

  /** The reason clauses, in rule order. */
  function AlertReasons(c: AlertCounts): seq<string>
  {
    (if c.absent > 0 then ["결근 " + IntToStr(c.absent) + "회"] else []) +
    (if c.nightNoCheckout > 0 then ["NIGHT 미퇴근 " + IntToStr(c.nightNoCheckout) + "회"] else []) +
    (if c.late >= 3 then ["지각 " + IntToStr(c.late) + "회"] else []) +
    (if c.unpaid >= 180 then ["무급(공제) " + IntToStr(c.unpaid) + "분"] else []) +
    (if c.overtime >= 600 then ["야근 " + IntToStr(c.overtime) + "분"] else [])
  }

  /** The score, rule by rule as `_build_alerts` adds it up. */
  function AlertScore(c: AlertCounts): int
  {
    (if c.absent > 0 then 3 + c.absent else 0) +
    (if c.nightNoCheckout > 0 then 3 + c.nightNoCheckout else 0) +
    (if c.late >= 3 then 2 + (c.late - 2) else 0) +
    (if c.unpaid >= 180 then 2 else 0) +
    (if c.overtime >= 600 then 1 else 0)
  }

  /** The number of rules that fire. */
  function RulesFired(c: AlertCounts): nat
  {
    (if c.absent > 0 then 1 else 0) + (if c.nightNoCheckout > 0 then 1 else 0) + (if c.late >= 3 then 1 else 0) +
    (if c.unpaid >= 180 then 1 else 0) + (if c.overtime >= 600 then 1 else 0)
  }

  /** One clause per fired rule; a positive score needs a reason, so `and reasons` never
      decides anything; and the three count rules alone reach the threshold, while unpaid and
      overtime minutes need each other. */
  lemma ScoreAndReasons(c: AlertCounts)
    ensures |AlertReasons(c)| == RulesFired(c)
    ensures AlertScore(c) >= RulesFired(c)
    ensures AlertScore(c) > 0 <==> AlertReasons(c) != []
    ensures (c.absent > 0 || c.nightNoCheckout > 0 || c.late >= 3) ==> AlertScore(c) >= 3
    ensures (c.absent == 0 && c.nightNoCheckout == 0 && c.late < 3) ==>
      (AlertScore(c) >= 3 <==> c.unpaid >= 180 && c.overtime >= 600)
  {
  }

  /** The score in closed form, one term per alert rule in the order the rules are checked;
      the late rule's `2 + (late - 2)` adds exactly the late count. */
  lemma ScoreTerms(c: AlertCounts)
    ensures AlertScore(c) ==
      (if c.absent > 0 then 3 + c.absent else 0) + (if c.nightNoCheckout > 0 then 3 + c.nightNoCheckout else 0) +
      (if c.late >= 3 then c.late else 0) + (if c.unpaid >= 180 then 2 else 0) + (if c.overtime >= 600 then 1 else 0)
    ensures AlertScore(c) >= 0
  {
  }

  /** More of anything never lowers the score. */
  lemma ScoreMonotone(c: AlertCounts, d: AlertCounts)
    requires c.absent <= d.absent && c.nightNoCheckout <= d.nightNoCheckout && c.late <= d.late
    requires c.unpaid <= d.unpaid && c.overtime <= d.overtime
    ensures AlertScore(c) <= AlertScore(d)
  {
  }

  // ---------------------------------------------------------------------------
  // Alerts
  // ---------------------------------------------------------------------------

  datatype Alert = Alert(empId: Option<string>, empName: Option<string>, score: int, reason: string)

  /** The truthiness of a group's name: a missing name is NaN there, and NaN is truthy. */
  predicate NameTruthy(name: Option<string>)
  {
    name.None? || name.value != []
  }

  /** The name an alert carries: the group's, or with `emp_name or emp_id` (the `fallback`
      of `storage2.py`) the id when the name is falsy. */
  function AlertName(k: GroupKey, fallback: bool): Option<string>
  {
    if fallback && !NameTruthy(k.empName) then k.empId else k.empName
  }

  /** The alert of one group, if `score >= 3 and reasons`. */
  function AlertOf(rows: seq<Row>, k: GroupKey, fallback: bool): Option<Alert>
  {
    var c := CountsOf(Group(rows, k));
    var reasons := AlertReasons(c);
    if AlertScore(c) >= 3 && reasons != [] then Some(Alert(k.empId, AlertName(k, fallback), AlertScore(c), Join(", ", reasons)))
    else None
  }

  /** The alerts of the groups `keys`, in that order, before sorting. */
  function GroupAlerts(rows: seq<Row>, keys: seq<GroupKey>, fallback: bool): (r: seq<Alert>)
    ensures |r| <= |keys|
    ensures forall i :: 0 <= i < |r| ==> r[i].score >= 3
  {
    if keys == [] then []
    else
      var a := AlertOf(rows, keys[|keys| - 1], fallback);
      GroupAlerts(rows, keys[..|keys| - 1], fallback) + (if a.Some? then [a.value] else [])
  }

  lemma GroupAlertsStep(rows: seq<Row>, keys: seq<GroupKey>, i: nat, fallback: bool)
    requires i < |keys|
    ensures GroupAlerts(rows, keys[..i + 1], fallback) ==
      GroupAlerts(rows, keys[..i], fallback) +
      (if AlertOf(rows, keys[i], fallback).Some? then [AlertOf(rows, keys[i], fallback).value] else [])
  {
    assert keys[..i + 1][..i] == keys[..i];
  }

  /** Every alert comes from one of the groups, which emitted it. */
  lemma {:induction false} GroupAlertsFrom(rows: seq<Row>, keys: seq<GroupKey>, fallback: bool)
    ensures forall a :: a in GroupAlerts(rows, keys, fallback) ==>
      exists k :: k in keys && AlertOf(rows, k, fallback) == Some(a)
    ensures forall k :: k in keys && AlertOf(rows, k, fallback).Some? ==>
      AlertOf(rows, k, fallback).value in GroupAlerts(rows, keys, fallback)
  {
    if keys != [] {
      var init := keys[..|keys| - 1];
      GroupAlertsFrom(rows, init, fallback);
      assert keys == init + [keys[|keys| - 1]];
    }
  }

  function ScoreOf(a: Alert): int
  {
    a.score
  }

  /** `sorted(alerts, key=score, reverse=True)[:10]` */
  function TopAlerts(rows: seq<Row>, fallback: bool): (r: seq<Alert>)
    ensures |r| <= 10
    ensures NonIncreasing(r, ScoreOf)
    ensures multiset(r) <= multiset(GroupAlerts(rows, GroupKeys(rows), fallback))
  {
    SortedSliceRanked(GroupAlerts(rows, GroupKeys(rows), fallback), ScoreOf, 10);
    SliceTo(SortDesc(GroupAlerts(rows, GroupKeys(rows), fallback), ScoreOf), 10)
  }

  /** `_build_alerts(df)`: `KeyError` when the frame has rows but no `empId` or `empName`
      column to group by. */
  function AlertsOf(f: Frame, fallback: bool): (r: Result<seq<Alert>, string>)
    ensures IsEmpty(f) ==> r == Ok([])
    ensures r.Err? <==> !IsEmpty(f) && ("empId" !in f.columns || "empName" !in f.columns)
    ensures r.Err? ==> r.error == "KeyError"
    ensures r.Ok? ==> |r.value| <= 10 && NonIncreasing(r.value, ScoreOf)
  {
    if IsEmpty(f) then Ok([])
    else if "empId" !in f.columns || "empName" !in f.columns then Err("KeyError")
    else Ok(TopAlerts(f.rows, fallback))
  }

  /** The body of the group loop of `_build_alerts(df)`: the five rules add their reason and
      score in turn, and the group is kept when `score >= 3 and reasons`. */
  method ScoreGroup(rows: seq<Row>, k: GroupKey, fallback: bool) returns (a: Option<Alert>)
    ensures a == AlertOf(rows, k, fallback)
  {
    var c := CountsOf(Group(rows, k));
    ghost var r1 := if c.absent > 0 then ["결근 " + IntToStr(c.absent) + "회"] else [];
    ghost var r2 := if c.nightNoCheckout > 0 then ["NIGHT 미퇴근 " + IntToStr(c.nightNoCheckout) + "회"] else [];
    ghost var r3 := if c.late >= 3 then ["지각 " + IntToStr(c.late) + "회"] else [];
    ghost var r4 := if c.unpaid >= 180 then ["무급(공제) " + IntToStr(c.unpaid) + "분"] else [];
    ghost var r5 := if c.overtime >= 600 then ["야근 " + IntToStr(c.overtime) + "분"] else [];
    var reasons: seq<string> := [];
    var score := 0;
    if c.absent > 0 {
      reasons := reasons + ["결근 " + IntToStr(c.absent) + "회"];
      score := score + 3 + c.absent;
    }
    assert reasons == r1;
    if c.nightNoCheckout > 0 {
      reasons := reasons + ["NIGHT 미퇴근 " + IntToStr(c.nightNoCheckout) + "회"];
      score := score + 3 + c.nightNoCheckout;
    }
    assert reasons == r1 + r2;
    if c.late >= 3 {
      reasons := reasons + ["지각 " + IntToStr(c.late) + "회"];
      score := score + 2 + (c.late - 2);
    }
    assert reasons == r1 + r2 + r3;
    if c.unpaid >= 180 {
      reasons := reasons + ["무급(공제) " + IntToStr(c.unpaid) + "분"];
      score := score + 2;
    }
    assert reasons == r1 + r2 + r3 + r4;
    if c.overtime >= 600 {
      reasons := reasons + ["야근 " + IntToStr(c.overtime) + "분"];
      score := score + 1;
    }
    assert reasons == r1 + r2 + r3 + r4 + r5;
    assert reasons == AlertReasons(c) && score == AlertScore(c);
    if score >= 3 && reasons != [] {
      a := Some(Alert(k.empId, AlertName(k, fallback), score, Join(", ", reasons)));
    } else {
      a := None;
    }
  }

  /** `_build_alerts(df)`: one pass over the groups, then the in-place sort and the `[:10]`
      slice. */
  method BuildAlerts(f: Frame, fallback: bool) returns (r: Result<seq<Alert>, string>)
    ensures r == AlertsOf(f, fallback)
  {
    if IsEmpty(f) {
      return Ok([]);
    }
    if "empId" !in f.columns || "empName" !in f.columns {
      return Err("KeyError");
    }
    var keys := GroupKeys(f.rows);
    var alerts: seq<Alert> := [];
    var i := 0;
    while i < |keys|
      invariant 0 <= i <= |keys|
      invariant alerts == GroupAlerts(f.rows, keys[..i], fallback)
    {
      GroupAlertsStep(f.rows, keys, i, fallback);
      var a := ScoreGroup(f.rows, keys[i], fallback);
      if a.Some? {
        alerts := alerts + [a.value];
      }
      i := i + 1;
    }
    assert keys[..i] == keys;
    alerts := SortDesc(alerts, ScoreOf);
    r := Ok(SliceTo(alerts, 10));
  }

  // ---------------------------------------------------------------------------
  // What the alerts promise
  // ---------------------------------------------------------------------------

  /** An empty frame, with or without columns, gives no alerts. */
  lemma AlertsOfEmpty(columns: set<string>, fallback: bool)
    ensures AlertsOf(Frame(columns, []), fallback) == Ok([])
    ensures AlertsOf(Frame({}, []), fallback) == Ok([])
  {
  }

  /** An alert carries a score of at least 3 and a non-empty reason. */
  lemma AlertShape(rows: seq<Row>, k: GroupKey, fallback: bool)
    requires AlertOf(rows, k, fallback).Some?
    ensures AlertOf(rows, k, fallback).value.score >= 3
    ensures AlertOf(rows, k, fallback).value.reason != []
  {
    var c := CountsOf(Group(rows, k));
    ScoreAndReasons(c);
    JoinNonEmptyParts(AlertReasons(c));
  }

  /** The kept alerts are alerts of the frame's groups. */
  lemma KeptFromGroups(rows: seq<Row>, fallback: bool, r: seq<Alert>)
    requires forall a :: a in r ==> a in GroupAlerts(rows, GroupKeys(rows), fallback)
    ensures forall a :: a in r ==> exists k :: k in GroupKeys(rows) && AlertOf(rows, k, fallback) == Some(a)
    ensures forall a :: a in r ==> a.score >= 3 && a.reason != []
  {
    var keys := GroupKeys(rows);
    GroupAlertsFrom(rows, keys, fallback);
    forall a | a in r
      ensures exists k :: k in keys && AlertOf(rows, k, fallback) == Some(a)
      ensures a.score >= 3 && a.reason != []
    {
      var k :| k in keys && AlertOf(rows, k, fallback) == Some(a);
      AlertShape(rows, k, fallback);
    }
  }

  /** An element of a sub-multiset is an element of the larger sequence. */
  lemma SubMultisetMembers<T>(r: seq<T>, s: seq<T>)
    requires multiset(r) <= multiset(s)
    ensures forall x :: x in r ==> x in s
  {
    forall x | x in r ensures x in s {
      assert x in multiset(r);
    }
  }

  /** An alerting group left out is outranked by all 10 kept alerts. */
  lemma LeftOutOutranked(rows: seq<Row>, fallback: bool, k: GroupKey)
    requires k in GroupKeys(rows) && AlertOf(rows, k, fallback).Some?
    requires AlertOf(rows, k, fallback).value !in TopAlerts(rows, fallback)
    ensures var r := TopAlerts(rows, fallback);
      |r| == 10 && forall i :: 0 <= i < |r| ==> r[i].score >= AlertOf(rows, k, fallback).value.score
  {
    var all := GroupAlerts(rows, GroupKeys(rows), fallback);
    var a := AlertOf(rows, k, fallback).value;
    GroupAlertsFrom(rows, GroupKeys(rows), fallback);
    SortedSliceTop(all, ScoreOf, 10, a);
  }

  /** A frame with rows and both key columns yields exactly the top-ranked group alerts. */
  lemma AlertsOfKeyed(f: Frame, fallback: bool)
    requires !IsEmpty(f)
    ensures AlertsOf(f, fallback).Ok? <==> "empId" in f.columns && "empName" in f.columns
    ensures AlertsOf(f, fallback).Ok? ==> AlertsOf(f, fallback).value == TopAlerts(f.rows, fallback)
  {
  }

  /** At most 10 alerts, by non-increasing score, and equal scores keep the groups' order. */
  lemma AlertsRanked(rows: seq<Row>, fallback: bool)
    ensures var r := TopAlerts(rows, fallback);
      && |r| <= 10
      && NonIncreasing(r, ScoreOf)
      && (forall v :: WithKey(r, ScoreOf, v) <= WithKey(GroupAlerts(rows, GroupKeys(rows), fallback), ScoreOf, v))
  {
    SortedSliceRanked(GroupAlerts(rows, GroupKeys(rows), fallback), ScoreOf, 10);
  }

  /** Each kept alert scores at least 3, has a reason, and is the alert of a group of the
      rows. */
  lemma AlertsFromGroups(rows: seq<Row>, fallback: bool)
    ensures var r := TopAlerts(rows, fallback);
      && (forall a :: a in r ==> a.score >= 3 && a.reason != [])
      && (forall a :: a in r ==> exists k :: k in GroupKeys(rows) && AlertOf(rows, k, fallback) == Some(a))
  {
    var all := GroupAlerts(rows, GroupKeys(rows), fallback);
    SortedSliceRanked(all, ScoreOf, 10);
    SubMultisetMembers(TopAlerts(rows, fallback), all);
    KeptFromGroups(rows, fallback, TopAlerts(rows, fallback));
  }

  /** An emitting group left out is outranked by all 10 kept alerts. */
  lemma AlertsLeftOut(rows: seq<Row>, fallback: bool)
    ensures var r := TopAlerts(rows, fallback);
      forall k :: k in GroupKeys(rows) && AlertOf(rows, k, fallback).Some? &&
                  AlertOf(rows, k, fallback).value !in r ==>
        |r| == 10 && forall i :: 0 <= i < |r| ==> r[i].score >= AlertOf(rows, k, fallback).value.score
  {
    var r := TopAlerts(rows, fallback);
    forall k | k in GroupKeys(rows) && AlertOf(rows, k, fallback).Some? && AlertOf(rows, k, fallback).value !in r
      ensures |r| == 10 && forall i :: 0 <= i < |r| ==> r[i].score >= AlertOf(rows, k, fallback).value.score
    {
      LeftOutOutranked(rows, fallback, k);
    }
  }

  /** Each reason clause is non-empty, so the joined reason is too. */
  lemma JoinNonEmptyParts(parts: seq<string>)
    requires parts != [] && forall i :: 0 <= i < |parts| ==> parts[i] != []
    ensures Join(", ", parts) != []
  {
    if |parts| > 1 {
      assert Join(", ", parts) == parts[0] + ", " + Join(", ", parts[1..]);
    }
  }

  /** A group is alerted about iff its score reaches 3; the alert carries that score and the
      reasons joined by ", " in rule order. */
  lemma AlertExactlyAtThreshold(rows: seq<Row>, k: GroupKey, fallback: bool)
    ensures var c := CountsOf(Group(rows, k));
      && (AlertOf(rows, k, fallback).Some? <==> AlertScore(c) >= 3)
      && (AlertOf(rows, k, fallback).Some? ==>
            AlertOf(rows, k, fallback).value == Alert(k.empId, AlertName(k, fallback), AlertScore(c), Join(", ", AlertReasons(c))))
  {
    ScoreAndReasons(CountsOf(Group(rows, k)));
  }

  /** `emp_name or emp_id`: only an empty name is replaced by the id; a missing name arrives
      as NaN, which is truthy, and stays; without the fallback the group's name is kept. */
  lemma NameFallback(id: Option<string>, name: string)
    ensures AlertName(GroupKey(id, Some("")), true) == id
    ensures name != [] ==> AlertName(GroupKey(id, Some(name)), true) == Some(name)
    ensures AlertName(GroupKey(id, None), true) == None
    ensures AlertName(GroupKey(id, Some("")), false) == Some("")
  {
  }

  /** The same rows under the same key but a different name are separate groups. */
  lemma NamesSplitGroups(a: Row, b: Row)
    requires a.empId == b.empId && a.empName != b.empName
    ensures |GroupKeys([a, b])| == 2
    ensures Group([a, b], KeyOf(a)) == [a]
  {
    assert [a, b][..1] == [a];
    assert [a][..0] == [];
    assert GroupKeys([a]) == [KeyOf(a)];
    assert KeyOf(a) != KeyOf(b);
    assert InsertKey(KeyOf(b), [KeyOf(a)]) == [KeyOf(a), KeyOf(b)] || InsertKey(KeyOf(b), [KeyOf(a)]) == [KeyOf(b), KeyOf(a)];
    assert [a, b][1..] == [b];
    assert Group([b], KeyOf(a)) == [] + Group([], KeyOf(a));
  }

  // ---------------------------------------------------------------------------
  // Filling the minutes first (app.py) against scoring the raw minutes (routes.py)
  // ---------------------------------------------------------------------------

  predicate FilledFrom(filled: seq<Row>, rows: seq<Row>)
  {
    |filled| == |rows| && forall i :: 0 <= i < |rows| ==> filled[i] == FillRow(rows[i])
  }

  lemma FilledFromTail(filled: seq<Row>, rows: seq<Row>)
    requires FilledFrom(filled, rows) && rows != []
    ensures FilledFrom(filled[1..], rows[1..]) && FilledFrom(filled[..|filled| - 1], rows[..|rows| - 1])
  {
  }

  /** Filling keeps every key, so the groups are the same ones in the same order. */
  lemma {:induction false} FillKeepsGroupKeys(filled: seq<Row>, rows: seq<Row>)
    requires FilledFrom(filled, rows)
    ensures GroupKeys(filled) == GroupKeys(rows)
  {
    if rows != [] {
      FilledFromTail(filled, rows);
      FillKeepsGroupKeys(filled[..|filled| - 1], rows[..|rows| - 1]);
    }
  }

  /** Filling works row by row inside each group. */
  lemma {:induction false} FillKeepsGroups(filled: seq<Row>, rows: seq<Row>, k: GroupKey)
    requires FilledFrom(filled, rows)
    ensures FilledFrom(Group(filled, k), Group(rows, k))
  {
    if rows != [] {
      FilledFromTail(filled, rows);
      FillKeepsGroups(filled[1..], rows[1..], k);
    }
  }

  /** The status, night and unpaid counts are untouched; the overtime sum can only grow, since
      a positive recorded value is kept and any other is replaced by one that is not negative. */
  lemma {:induction false} FillCounts(filled: seq<Row>, g: seq<Row>)
    requires FilledFrom(filled, g)
    ensures var c, d := CountsOf(g), CountsOf(filled);
      d.absent == c.absent && d.nightNoCheckout == c.nightNoCheckout && d.late == c.late &&
      d.unpaid == c.unpaid && d.overtime >= c.overtime
  {
    if g != [] {
      FilledFromTail(filled, g);
      FillCounts(filled[1..], g[1..]);
      FillRowRules(g[0]);
    }
  }

  /** So the app's endpoint, which fills first, alerts about every employee the raw scoring of
      `routes.py` alerts about, with a score at least as high. */
  lemma FillNeverHidesAlerts(f: Frame, k: GroupKey, fallback: bool)
    requires !IsEmpty(f)
    ensures GroupKeys(FilledFrame(f).rows) == GroupKeys(f.rows)
    ensures AlertScore(CountsOf(Group(FilledFrame(f).rows, k))) >= AlertScore(CountsOf(Group(f.rows, k)))
    ensures AlertOf(f.rows, k, fallback).Some? ==> AlertOf(FilledFrame(f).rows, k, fallback).Some?
  {
    var filled := FilledFrame(f).rows;
    assert FilledFrom(filled, f.rows);
    FillKeepsGroupKeys(filled, f.rows);
    FillKeepsGroups(filled, f.rows, k);
    FillCounts(Group(filled, k), Group(f.rows, k));
    ScoreMonotone(CountsOf(Group(f.rows, k)), CountsOf(Group(filled, k)));
    AlertExactlyAtThreshold(f.rows, k, fallback);
    AlertExactlyAtThreshold(filled, k, fallback);
  }

  /** And the two differ: a day from 05:00 to 23:00 with 180 unpaid minutes and no recorded
      overtime scores 2 raw (no alert) but 3 once the 600 overtime minutes are derived. */
  lemma FillRevealsOvertime(d: Date, id: Option<string>, name: Option<string>, fallback: bool)
    ensures var r := Row(id, name, Some(d), Some(DateTime(d, 5, 0)), Some(DateTime(d, 23, 0)), None, None, 0, 0, 180, 0);
      && AlertOf([r], KeyOf(r), fallback).None?
      && AlertOf([FillRow(r)], KeyOf(r), fallback).Some?
      && AlertOf([FillRow(r)], KeyOf(r), fallback).value.score == 3
  {
    var r := Row(id, name, Some(d), Some(DateTime(d, 5, 0)), Some(DateTime(d, 23, 0)), None, None, 0, 0, 180, 0);
    assert CalcTotalMinutes(r.checkIn, r.checkOut) == 1080;
    assert FillRow(r).overtime == 600;
    var k := KeyOf(r);
    assert [r][1..] == [] && [FillRow(r)][1..] == [];
    assert StatusCount([r], "ABSENT") == 0 && StatusCount([r], "LATE") == 0;
    assert NightNoCheckout([r]) == 0;
    assert UnpaidSum([r]) == 180;
    assert OvertimeSum([r]) == 0;
    assert CountsOf([r]) == AlertCounts(0, 0, 0, 180, 0);
    assert CountsOf([FillRow(r)]) == AlertCounts(0, 0, 0, 180, 600);
    AlertExactlyAtThreshold([r], k, fallback);
    AlertExactlyAtThreshold([FillRow(r)], k, fallback);
  }
}
