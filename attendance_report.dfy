/**
 * `_build_employee_report`: the one-employee report of the four attendance services.
 *
 * The employee's rows are selected by `empId`, sorted by work date (undated rows last) and
 * turned into chart series, a status histogram and a templated analysis: a bullet per
 * observation, the risks seen, a summary sentence and the recommended actions.
 */
module AttendanceReport {
  import opened Wrappers
  import opened PyStr
  import opened Ranking
  import opened AttendanceFrame
  import opened AttendanceAlerts

  const NoDataMessage: string := "해당 기간 데이터가 없습니다."

  // ---------------------------------------------------------------------------
  // Selecting the employee
  // ---------------------------------------------------------------------------

  /** `df[df["empId"] == emp_id]`: the employee's rows, in frame order. */
  function EmployeeRows(rows: seq<Row>, empId: string): (g: seq<Row>)
    ensures |g| <= |rows|
    ensures forall r :: r in g <==> r in rows && r.empId == Some(empId)
  {
    if rows == [] then []
    else (if rows[0].empId == Some(empId) then [rows[0]] else []) + EmployeeRows(rows[1..], empId)
  }

  /** The selection as written: `df["empId"]` raises `KeyError` on a frame without the
      column, and `_to_df` gives such a frame, `pd.DataFrame()`, when there are no records. */
  function SelectAsWritten(f: Frame, empId: string): (r: Result<seq<Row>, string>)
    ensures r.Err? <==> "empId" !in f.columns
    ensures r.Err? ==> r.error == "KeyError"
    ensures r.Ok? ==> forall x :: x in r.value <==> x in f.rows && x.empId == Some(empId)
  {
    if "empId" !in f.columns then Err("KeyError") else Ok(EmployeeRows(f.rows, empId))
  }

  /** The selection as the `g.empty` branch intends it: a frame without rows has no data for
      anybody. */
  function Select(f: Frame, empId: string): (r: Result<seq<Row>, string>)
    ensures f.rows == [] ==> r == Ok([])
    ensures r.Err? <==> f.rows != [] && "empId" !in f.columns
    ensures r.Ok? ==> forall x :: x in r.value <==> x in f.rows && x.empId == Some(empId)
  {
    if f.rows == [] then Ok([]) else SelectAsWritten(f, empId)
  }

  /** For no records every `_to_df` returns the frame without columns, on which the selection
      as written raises, so the report of an empty period fails instead of saying there is no
      data; the corrected selection finds no rows. */
  lemma EmptyPeriodRaises(p: Parsers, empId: string)
    ensures ToDfNormalizing(p, []) == Ok(Frame({}, [])) && ToDfStorage1(p, []) == Ok(Frame({}, []))
    ensures ToDfStorage2(p, []) == Frame({}, [])
    ensures SelectAsWritten(Frame({}, []), empId) == Err("KeyError")
    ensures Select(Frame({}, []), empId) == Ok([])
  {
  }

  /** The corrected selection agrees with the one as written on every frame with rows, and
      it fails only for rows without an `empId` column. */
  lemma SelectCorrects(f: Frame, empId: string)
    ensures f.rows != [] ==> Select(f, empId) == SelectAsWritten(f, empId)
    ensures Select(f, empId).Err? <==> f.rows != [] && "empId" !in f.columns
    ensures Select(f, empId).Ok? ==> forall r :: r in Select(f, empId).value <==> r in f.rows && r.empId == Some(empId)
  {
  }

  // ---------------------------------------------------------------------------
  // Name and status histogram
  // ---------------------------------------------------------------------------

  /** `g["empName"].dropna().iloc[0]`, if any. */
  function FirstName(g: seq<Row>): (r: Option<string>)
    ensures r.Some? <==> exists i :: 0 <= i < |g| && g[i].empName.Some?
    ensures r.Some? ==> exists i :: 0 <= i < |g| && g[i].empName == r &&
                                    forall j :: 0 <= j < i ==> g[j].empName.None?
  {
    if g == [] then None
    else if g[0].empName.Some? then g[0].empName
    else
      var r := FirstName(g[1..]);
      if r.Some? then
        var i :| 0 <= i < |g[1..]| && g[1..][i].empName == r && forall j :: 0 <= j < i ==> g[1..][j].empName.None?;
        assert g[i + 1].empName == r;
        r
      else r
  }

  /** `emp_name`: the first recorded name, or the id when the column is missing or empty. */
  function EmpName(g: seq<Row>, columns: set<string>, empId: string): string
  {
    if "empName" in columns && FirstName(g).Some? then FirstName(g).value else empId
  }

  /** `fillna("UNKNOWN")` */
  function StatusLabel(r: Row): string
  {
    r.workStatus.GetOr("UNKNOWN")
  }

  function LabelCount(g: seq<Row>, s: string): nat
  {
    if g == [] then 0 else (if StatusLabel(g[0]) == s then 1 else 0) + LabelCount(g[1..], s)
  }

  /** `value_counts().to_dict()` */
  function StatusCounts(g: seq<Row>): map<string, nat>
  {
    if g == [] then map[]
    else
      var m := StatusCounts(g[1..]);
      var s := StatusLabel(g[0]);
      m[s := (if s in m then m[s] else 0) + 1]
  }

  /** The histogram has a bar exactly for each label that occurs, as high as its number of
      rows; a missing status counts as `"UNKNOWN"`. */
  lemma {:induction false} StatusCountsExact(g: seq<Row>)
    ensures forall s :: s in StatusCounts(g) <==> exists i :: 0 <= i < |g| && StatusLabel(g[i]) == s
    ensures forall s :: s in StatusCounts(g) ==> StatusCounts(g)[s] == LabelCount(g, s) > 0
    ensures forall s :: s !in StatusCounts(g) ==> LabelCount(g, s) == 0
  {
    if g != [] {
      StatusCountsExact(g[1..]);
      forall s | s in StatusCounts(g)
        ensures exists i :: 0 <= i < |g| && StatusLabel(g[i]) == s
      {
        if s != StatusLabel(g[0]) {
          assert s in StatusCounts(g[1..]);
          var i :| 0 <= i < |g[1..]| && StatusLabel(g[1..][i]) == s;
          assert StatusLabel(g[i + 1]) == s;
        }
      }
      forall s | exists i :: 0 <= i < |g| && StatusLabel(g[i]) == s
        ensures s in StatusCounts(g)
      {
        var i :| 0 <= i < |g| && StatusLabel(g[i]) == s;
        if i > 0 {
          assert StatusLabel(g[1..][i - 1]) == s;
        }
      }
    }
  }

  /** The histogram guarded by `"workStatus" in g`. */
  function GuardedStatusCounts(g: seq<Row>, columns: set<string>): map<string, nat>
  {
    if "workStatus" in columns then StatusCounts(g) else map[]
  }

  // ---------------------------------------------------------------------------
  // The templated analysis
  // ---------------------------------------------------------------------------

  datatype ReportCounts = ReportCounts(
    late: nat, early: nat, absent: nat, pending: nat,
    unpaid: int, overtime: int, night: nat, nightNoCheckout: nat)

  function ReportCountsOf(g: seq<Row>): ReportCounts
  {
    ReportCounts(StatusCount(g, "LATE"), StatusCount(g, "EARLY_LEAVE"), StatusCount(g, "ABSENT"), StatusCount(g, "PENDING"),
                 UnpaidSum(g), OvertimeSum(g), NightCount(g), NightNoCheckout(g))
  }

  function FirstBullet(c: ReportCounts): string
  {
    "최근 기간 내 지각 " + IntToStr(c.late) + "회, 조퇴 " + IntToStr(c.early) + "회, 결근 " + IntToStr(c.absent) + "회 입니다."
  }

  function Optional(cond: bool, x: string): seq<string>
  {
    if cond then [x] else []
  }

  function UnpaidBullet(n: int): string { "무급(공제) 시간 합계는 " + IntToStr(n) + "분 입니다." }
  function OvertimeBullet(n: int): string { "야근 시간 합계는 " + IntToStr(n) + "분 입니다." }
  function NightBullet(n: int): string { "NIGHT 근무 유형이 " + IntToStr(n) + "회 감지되었습니다." }
  function WarningBullet(n: int): string { "⚠ NIGHT 상태에서 퇴근 미기록이 " + IntToStr(n) + "회 있어 리스크가 있습니다." }
  function PendingBullet(n: int): string { "PENDING 상태가 " + IntToStr(n) + "건 남아있습니다(출근 미실행/기록 생성 직후 가능)." }

  /** `bullets`: the counts sentence, then one sentence per observation that applies. */
  function Bullets(c: ReportCounts): seq<string>
  {
    [FirstBullet(c)] + Observed(c)
  }

  function Observed(c: ReportCounts): seq<string>
  {
    Optional(c.unpaid > 0, UnpaidBullet(c.unpaid)) +
    Optional(c.overtime > 0, OvertimeBullet(c.overtime)) +
    Optional(c.night > 0, NightBullet(c.night)) +
    Optional(c.nightNoCheckout > 0, WarningBullet(c.nightNoCheckout)) +
    Optional(c.pending > 0, PendingBullet(c.pending))
  }

  /** The number of optional bullets that apply. */
  function Observations(c: ReportCounts): nat
  {
    (if c.unpaid > 0 then 1 else 0) + (if c.overtime > 0 then 1 else 0) + (if c.night > 0 then 1 else 0) +
    (if c.nightNoCheckout > 0 then 1 else 0) + (if c.pending > 0 then 1 else 0)
  }

  /** The first character of each bullet, a space for an empty one. */
  function Heads(b: seq<string>): (h: seq<char>)
    ensures |h| == |b|
  {
    if b == [] then [] else [if b[0] == [] then ' ' else b[0][0]] + Heads(b[1..])
  }

  lemma {:induction false} HeadsAppend(a: seq<string>, b: seq<string>)
    ensures Heads(a + b) == Heads(a) + Heads(b)
  {
    if a == [] {
      assert a + b == b;
    } else {
      assert (a + b)[0] == a[0];
      assert (a + b)[1..] == a[1..] + b;
      HeadsAppend(a[1..], b);
    }
  }

  /** Which marks occur among five optional, distinct marks. */
  lemma MarksPresent(u: bool, o: bool, n: bool, w: bool, p: bool, h: seq<char>)
    requires h == (if u then "무" else "") + (if o then "야" else "") + (if n then "N" else "") +
                  (if w then "⚠" else "") + (if p then "P" else "")
    ensures ('무' in h <==> u) && ('야' in h <==> o) && ('N' in h <==> n) && ('⚠' in h <==> w) && ('P' in h <==> p)
  {
  }

  lemma BulletHeads(n: int)
    ensures UnpaidBullet(n)[0] == '무' && OvertimeBullet(n)[0] == '야' && NightBullet(n)[0] == 'N'
    ensures WarningBullet(n)[0] == '⚠' && PendingBullet(n)[0] == 'P'
  {
  }

  /** The counts sentence always comes first; each later sentence is there exactly when its
      observation applies, which its first character tells apart (the risk warning is the one
      starting with the warning sign). */
  lemma BulletsRules(c: ReportCounts)
    ensures var b := Bullets(c);
      && b[0] == FirstBullet(c)
      && |b| == 1 + Observations(c)
      && ('무' in Heads(b[1..]) <==> c.unpaid > 0)
      && ('야' in Heads(b[1..]) <==> c.overtime > 0)
      && ('N' in Heads(b[1..]) <==> c.night > 0)
      && ('⚠' in Heads(b[1..]) <==> c.nightNoCheckout > 0)
      && ('P' in Heads(b[1..]) <==> c.pending > 0)
  {
    BulletMarks(c);
    BulletCount(c);
    MarksPresent(c.unpaid > 0, c.overtime > 0, c.night > 0, c.nightNoCheckout > 0, c.pending > 0, Heads(Bullets(c)[1..]));
  }

  lemma HeadsOptional(cond: bool, x: string)
    requires x != []
    ensures Heads(Optional(cond, x)) == if cond then [x[0]] else []
    ensures |Optional(cond, x)| == if cond then 1 else 0
  {
    if cond {
      assert Optional(cond, x)[1..] == [];
    }
  }

  /** The first characters of the bullets after the first. */
  lemma BulletMarks(c: ReportCounts)
    ensures Heads(Bullets(c)[1..]) ==
      (if c.unpaid > 0 then "무" else "") + (if c.overtime > 0 then "야" else "") + (if c.night > 0 then "N" else "") +
      (if c.nightNoCheckout > 0 then "⚠" else "") + (if c.pending > 0 then "P" else "")
  {
    var u := Optional(c.unpaid > 0, UnpaidBullet(c.unpaid));
    var o := Optional(c.overtime > 0, OvertimeBullet(c.overtime));
    var n := Optional(c.night > 0, NightBullet(c.night));
    var w := Optional(c.nightNoCheckout > 0, WarningBullet(c.nightNoCheckout));
    var p := Optional(c.pending > 0, PendingBullet(c.pending));
    assert Bullets(c)[1..] == Observed(c) == u + o + n + w + p;
    BulletHeads(c.unpaid);
    BulletHeads(c.overtime);
    BulletHeads(c.night);
    BulletHeads(c.nightNoCheckout);
    BulletHeads(c.pending);
    HeadsOptional(c.unpaid > 0, UnpaidBullet(c.unpaid));
    HeadsOptional(c.overtime > 0, OvertimeBullet(c.overtime));
    HeadsOptional(c.night > 0, NightBullet(c.night));
    HeadsOptional(c.nightNoCheckout > 0, WarningBullet(c.nightNoCheckout));
    HeadsOptional(c.pending > 0, PendingBullet(c.pending));
    HeadsOfFive(u, o, n, w, p);
  }

  /** One bullet per observation that applies, after the counts sentence. */
  lemma BulletCount(c: ReportCounts)
    ensures |Bullets(c)| == 1 + Observations(c)
  {
    var u := Optional(c.unpaid > 0, UnpaidBullet(c.unpaid));
    var o := Optional(c.overtime > 0, OvertimeBullet(c.overtime));
    var n := Optional(c.night > 0, NightBullet(c.night));
    var w := Optional(c.nightNoCheckout > 0, WarningBullet(c.nightNoCheckout));
    var p := Optional(c.pending > 0, PendingBullet(c.pending));
    assert |Bullets(c)| == 1 + |u| + |o| + |n| + |w| + |p|;
  }

  lemma HeadsOfFive(u: seq<string>, o: seq<string>, n: seq<string>, w: seq<string>, p: seq<string>)
    ensures Heads(u + o + n + w + p) == Heads(u) + Heads(o) + Heads(n) + Heads(w) + Heads(p)
  {
    HeadsAppend(u, o);
    HeadsAppend(u + o, n);
    HeadsAppend(u + o + n, w);
    HeadsAppend(u + o + n + w, p);
  }

  /** `risk`, in the order the template lists them. */
  function Risks(c: ReportCounts): seq<string>
  {
    (if c.absent > 0 then ["근무 이탈(결근) 패턴"] else []) +
    (if c.late >= 3 then ["지각 증가 패턴"] else []) +
    (if c.nightNoCheckout > 0 then ["퇴근 미기록으로 인한 야간근무 오인 리스크"] else [])
  }

  const CleanSuffix: string := " 사원은 최근 기간 내 큰 이상 패턴이 두드러지지 않습니다."

  /** `summary` */
  function Summary(name: string, risks: seq<string>): string
  {
    if risks != [] then name + " 사원은 최근 기간 내 " + Join(", ", risks) + "이(가) 관찰됩니다."
    else name + CleanSuffix
  }

  const DefaultAction: string := "현 상태 유지 및 정기 모니터링"

  /** `next_steps`: one action per risk, in the template's action order, or the default. */
  function Actions(c: ReportCounts): seq<string>
  {
    var action :=
      (if c.late >= 3 then ["출근 알림/지각 사유 확인"] else []) +
      (if c.nightNoCheckout > 0 then ["퇴근 미기록 사유 확인 및 관리자 수정 권장"] else []) +
      (if c.absent > 0 then ["결근 처리/증빙 확인"] else []);
    if action != [] then action else [DefaultAction]
  }

  /** Risks and actions answer each other: each risk has its action, and a record without
      risks gets the monitoring default only. */
  lemma RisksAndActions(c: ReportCounts)
    ensures Risks(c) != [] <==> c.absent > 0 || c.late >= 3 || c.nightNoCheckout > 0
    ensures Risks(c) != [] ==> |Actions(c)| == |Risks(c)| && DefaultAction !in Actions(c)
    ensures Risks(c) == [] <==> Actions(c) == [DefaultAction]
    ensures |Risks(c)| <= 3 && 1 <= |Actions(c)| <= 3
  {
  }

  /** Each risk comes with its own action. */
  lemma RiskActionPairs(c: ReportCounts)
    ensures ("지각 증가 패턴" in Risks(c)) <==> ("출근 알림/지각 사유 확인" in Actions(c))
    ensures ("근무 이탈(결근) 패턴" in Risks(c)) <==> ("결근 처리/증빙 확인" in Actions(c))
    ensures ("퇴근 미기록으로 인한 야간근무 오인 리스크" in Risks(c)) <==> ("퇴근 미기록 사유 확인 및 관리자 수정 권장" in Actions(c))
  {
  }

  /** The summary says "no notable pattern" exactly when there is no risk. */
  lemma SummaryClean(name: string, risks: seq<string>)
    ensures Summary(name, risks) == name + CleanSuffix <==> risks == []
  {
    if risks != [] {
      var s := Summary(name, risks);
      var mid := Join(", ", risks);
      assert s == name + (" 사원은 최근 기간 내 " + mid + "이(가) 관찰됩니다.");
      SuffixDiffers(name, mid);
    }
  }

  /** The two summary sentences never coincide: six characters from their end, the notable
      one has "관" where the clean one has a space. */
  lemma SuffixDiffers(name: string, mid: string)
    ensures name + (" 사원은 최근 기간 내 " + mid + "이(가) 관찰됩니다.") != name + CleanSuffix
  {
    var a := " 사원은 최근 기간 내 " + mid + "이(가) 관찰됩니다.";
    assert a[|a| - 6] == '관';
    assert CleanSuffix[|CleanSuffix| - 6] == ' ';
    assert (name + a)[|name|..] == a;
    assert (name + CleanSuffix)[|name|..] == CleanSuffix;
  }

  datatype Analysis = Analysis(summary: string, bullets: seq<string>, recommendedActions: seq<string>)

  function AnalysisText(name: string, c: ReportCounts): Analysis
  {
    Analysis(Summary(name, Risks(c)), Bullets(c), Actions(c))
  }

  // ---------------------------------------------------------------------------
  // Sorting by work date and the chart series
  // ---------------------------------------------------------------------------

  function Dated(g: seq<Row>): (r: seq<Row>)
    ensures |r| <= |g| && forall x :: x in r <==> x in g && x.workDate.Some?
  {
    if g == [] then [] else (if g[0].workDate.Some? then [g[0]] else []) + Dated(g[1..])
  }

  function Undated(g: seq<Row>): (r: seq<Row>)
    ensures |r| <= |g| && forall x :: x in r <==> x in g && x.workDate.None?
  {
    if g == [] then [] else (if g[0].workDate.None? then [g[0]] else []) + Undated(g[1..])
  }

  lemma {:induction false} DatedUndatedSplit(g: seq<Row>)
    ensures multiset(Dated(g)) + multiset(Undated(g)) == multiset(g)
  {
    if g != [] {
      var h, t := [g[0]], g[1..];
      DatedUndatedSplit(t);
      assert g == h + t;
      assert multiset(g) == multiset(h) + multiset(t);
      if g[0].workDate.Some? {
        assert Dated(g) == h + Dated(t);
        assert Undated(g) == [] + Undated(t);
      } else {
        assert Dated(g) == [] + Dated(t);
        assert Undated(g) == h + Undated(t);
      }
    }
  }

  /** A later date ranks lower, so the descending sort puts dates in ascending order. */
  function DateRank(r: Row): int
  {
    if r.workDate.Some? then -DateKey(r.workDate.value) else 0
  }

  /** `g.sort_values("workDate")`: ascending dates, rows on the same date in frame order, and
      the rows without a date (`NaT`) last. */
  function SortByWorkDate(g: seq<Row>): (s: seq<Row>)
    ensures |s| == |g| && multiset(s) == multiset(g)
  {
    SortDescPermutes(Dated(g), DateRank);
    DatedUndatedSplit(g);
    assert |multiset(Dated(g))| + |multiset(Undated(g))| == |multiset(g)|;
    SortDesc(Dated(g), DateRank) + Undated(g)
  }

  /** The sort only reorders; undated rows come after all dated ones; valid dates never go
      backwards. */
  lemma SortByWorkDateOrdered(g: seq<Row>)
    ensures var s := SortByWorkDate(g);
      && multiset(s) == multiset(g)
      && (forall i, j :: 0 <= i < j < |s| && s[j].workDate.Some? ==> s[i].workDate.Some?)
      && (forall i, j :: (0 <= i < j < |s| && s[j].workDate.Some? && ValidDate(s[i].workDate.value) &&
                          ValidDate(s[j].workDate.value)) ==> !DateBefore(s[j].workDate.value, s[i].workDate.value))
  {
    SortedDatedPart(g);
    UndatedLast(g);
    DatesAscending(g);
  }

  /** The sorted dated rows: all dated, by non-increasing rank, and with the undated rows a
      permutation of the frame's. */
  lemma SortedDatedPart(g: seq<Row>)
    ensures var d := SortDesc(Dated(g), DateRank);
      && (forall x :: x in d ==> x.workDate.Some?)
      && NonIncreasing(d, DateRank)
      && multiset(SortByWorkDate(g)) == multiset(g)
  {
    var d := SortDesc(Dated(g), DateRank);
    SortDescPermutes(Dated(g), DateRank);
    SortDescSorted(Dated(g), DateRank);
    DatedUndatedSplit(g);
    forall x | x in d
      ensures x.workDate.Some?
    {
      assert x in multiset(Dated(g));
    }
  }

  lemma UndatedLast(g: seq<Row>)
    requires forall x :: x in SortDesc(Dated(g), DateRank) ==> x.workDate.Some?
    ensures var s := SortByWorkDate(g);
      && (forall j :: 0 <= j < |s| && s[j].workDate.Some? ==> j < |SortDesc(Dated(g), DateRank)|)
      && (forall i, j :: 0 <= i < j < |s| && s[j].workDate.Some? ==> s[i].workDate.Some?)
  {
    var d := SortDesc(Dated(g), DateRank);
    var s := d + Undated(g);
    assert forall k :: |d| <= k < |s| ==> s[k] == Undated(g)[k - |d|];
    assert forall k :: 0 <= k < |d| ==> s[k] == d[k];
  }

  lemma DatesAscending(g: seq<Row>)
    requires var d := SortDesc(Dated(g), DateRank);
      NonIncreasing(d, DateRank) &&
      forall j :: 0 <= j < |SortByWorkDate(g)| && SortByWorkDate(g)[j].workDate.Some? ==> j < |d|
    requires forall x :: x in SortDesc(Dated(g), DateRank) ==> x.workDate.Some?
    ensures var s := SortByWorkDate(g);
      forall i, j :: (0 <= i < j < |s| && s[j].workDate.Some? && ValidDate(s[i].workDate.value) &&
                      ValidDate(s[j].workDate.value)) ==> !DateBefore(s[j].workDate.value, s[i].workDate.value)
  {
    var d := SortDesc(Dated(g), DateRank);
    var s := d + Undated(g);
    forall i, j | 0 <= i < j < |s| && s[j].workDate.Some? && ValidDate(s[i].workDate.value) && ValidDate(s[j].workDate.value)
      ensures !DateBefore(s[j].workDate.value, s[i].workDate.value)
    {
      assert s[i] == d[i] && s[j] == d[j];
      assert DateRank(d[i]) >= DateRank(d[j]);
      DateKeyOrder(s[j].workDate.value, s[i].workDate.value);
    }
  }

  /** `d.isoformat() if pd.notna(d) else ""` */
  function Label(r: Row): string
  {
    if r.workDate.Some? then Iso(r.workDate.value) else ""
  }

  /** `d.isoformat()` in `storage2.py`, where a missing date would print as `NaT`. */
  function Storage2Label(r: Row): string
  {
    if r.workDate.Some? then Iso(r.workDate.value) else "NaT"
  }

  datatype MinuteSeries = MinuteSeries(labels: seq<string>, normal: seq<int>, overtime: seq<int>, unpaid: seq<int>, total: Option<seq<int>>)

  datatype TimeSeries = TimeSeries(labels: seq<string>, checkInMinutes: seq<Option<int>>, checkOutMinutes: seq<Option<int>>)

  /** `series` over the sorted rows; `total` is left out by `storage1.py` and `storage2.py`. */
  function MinuteSeriesOf(s: seq<Row>, labels: seq<string>, withTotal: bool): MinuteSeries
  {
    MinuteSeries(labels,
      seq(|s|, i requires 0 <= i < |s| => s[i].normal),
      seq(|s|, i requires 0 <= i < |s| => s[i].overtime),
      seq(|s|, i requires 0 <= i < |s| => s[i].unpaid),
      if withTotal then Some(seq(|s|, i requires 0 <= i < |s| => s[i].total)) else None)
  }

  function Labels(s: seq<Row>): (r: seq<string>)
    ensures |r| == |s| && forall i :: 0 <= i < |s| ==> r[i] == Label(s[i])
  {
    seq(|s|, i requires 0 <= i < |s| => Label(s[i]))
  }

  /** `series_times` of `app.py`: the clock times, a checkout after midnight showing as an
      early hour. */
  function PlainTimes(s: seq<Row>): TimeSeries
  {
    TimeSeries(Labels(s),
      seq(|s|, i requires 0 <= i < |s| => MinutesSinceMidnight(s[i].checkIn)),
      seq(|s|, i requires 0 <= i < |s| => MinutesSinceMidnight(s[i].checkOut)))
  }

  /** The checkout minutes of `_build_series_times`: one day more when the checkout falls on a
      later date than the work date. */
  function ShiftedCheckOut(r: Row): Option<int>
  {
    var m := MinutesSinceMidnight(r.checkOut);
    if r.checkOut.Some? && r.workDate.Some? && DateBefore(r.workDate.value, r.checkOut.value.date) then Some(m.value + 1440)
    else m
  }

  /** The check-out minutes range over two days, and the second day is used exactly when the
      checkout is dated after the work date. */
  lemma ShiftedCheckOutRange(r: Row)
    requires r.checkOut.Some? && ValidDateTime(r.checkOut.value)
    ensures var m := ShiftedCheckOut(r).value;
      && 0 <= m < 2 * 1440
      && (m >= 1440 <==> r.workDate.Some? && DateBefore(r.workDate.value, r.checkOut.value.date))
      && m % 1440 == MinutesSinceMidnight(r.checkOut).value
  {
  }

  /** `_build_series_times(g)` as a value. */
  function SeriesTimesOf(g: seq<Row>): TimeSeries
  {
    if g == [] then TimeSeries([], [], [])
    else
      var s := SortByWorkDate(g);
      TimeSeries(Labels(s),
        seq(|s|, i requires 0 <= i < |s| => MinutesSinceMidnight(s[i].checkIn)),
        seq(|s|, i requires 0 <= i < |s| => ShiftedCheckOut(s[i])))
  }

  /** `_build_series_times(g)`: the rows sorted, then the row loop. */
  method BuildSeriesTimes(g: seq<Row>) returns (t: TimeSeries)
    ensures t == SeriesTimesOf(g)
  {
    if g == [] {
      return TimeSeries([], [], []);
    }
    var s := SortByWorkDate(g);
    t := CollectTimes(s);
    var want := SeriesTimesOf(g);
    MapUpToAll(s, Label);
    assert t.labels == want.labels;
    MapUpToAll(s, CheckInMinutes);
    assert t.checkInMinutes == want.checkInMinutes;
    MapUpToAll(s, ShiftedCheckOut);
    assert t.checkOutMinutes == want.checkOutMinutes;
  }

  /** `[f(row) for row in rows]`, built from the end as a loop appends it. */
  function MapUpTo<T>(rows: seq<Row>, f: Row -> T): (r: seq<T>)
    ensures |r| == |rows|
  {
    if rows == [] then [] else MapUpTo(rows[..|rows| - 1], f) + [f(rows[|rows| - 1])]
  }

  lemma MapUpToStep<T>(s: seq<Row>, i: nat, f: Row -> T)
    requires i < |s|
    ensures MapUpTo(s[..i + 1], f) == MapUpTo(s[..i], f) + [f(s[i])]
  {
    assert s[..i + 1][..i] == s[..i];
  }

  lemma {:induction false} MapUpToAll<T>(rows: seq<Row>, f: Row -> T)
    ensures forall k :: 0 <= k < |rows| ==> MapUpTo(rows, f)[k] == f(rows[k])
  {
    if rows != [] {
      MapUpToAll(rows[..|rows| - 1], f);
    }
  }

  function CheckInMinutes(r: Row): Option<int>
  {
    MinutesSinceMidnight(r.checkIn)
  }

  /** The row loop of `_build_series_times`: one label and the two minute values per sorted
      row. */
  method CollectTimes(s: seq<Row>) returns (t: TimeSeries)
    ensures t == TimeSeries(MapUpTo(s, Label), MapUpTo(s, CheckInMinutes), MapUpTo(s, ShiftedCheckOut))
  {
    var labels: seq<string> := [];
    var cin: seq<Option<int>> := [];
    var cout: seq<Option<int>> := [];
    var i := 0;
    while i < |s|
      invariant 0 <= i <= |s|
      invariant labels == MapUpTo(s[..i], Label)
      invariant cin == MapUpTo(s[..i], CheckInMinutes)
      invariant cout == MapUpTo(s[..i], ShiftedCheckOut)
    {
      MapUpToStep(s, i, Label);
      MapUpToStep(s, i, CheckInMinutes);
      MapUpToStep(s, i, ShiftedCheckOut);
      var wd := s[i].workDate;
      var co := s[i].checkOut;
      var rowLabel := Label(s[i]);
      var ciM := MinutesSinceMidnight(s[i].checkIn);
      var coM := MinutesSinceMidnight(co);
      if co.Some? && wd.Some? {
        if DateBefore(wd.value, co.value.date) {
          if coM.Some? {
            coM := Some(coM.value + 1440);
          }
        }
      }
      assert coM == ShiftedCheckOut(s[i]);
      labels := labels + [rowLabel];
      cin := cin + [ciM];
      cout := cout + [coM];
      i := i + 1;
    }
    assert s[..i] == s;
    t := TimeSeries(labels, cin, cout);
  }

  /** A night shift from 22:00 to 06:00 the next day: `app.py` charts the checkout at 360
      minutes, below the check-in at 1320, while `routes.py` charts it at 1800. */
  lemma NightShiftCharts(d: Date, next: Date, id: string)
    requires DateBefore(d, next)
    ensures var r := Row(Some(id), None, Some(d), Some(DateTime(d, 22, 0)), Some(DateTime(next, 6, 0)), None, Some("NIGHT"), 0, 0, 0, 0);
      && PlainTimes([r]).checkOutMinutes == [Some(360)]
      && SeriesTimesOf([r]).checkInMinutes == [Some(1320)]
      && SeriesTimesOf([r]).checkOutMinutes == [Some(1800)]
  {
    var r := Row(Some(id), None, Some(d), Some(DateTime(d, 22, 0)), Some(DateTime(next, 6, 0)), None, Some("NIGHT"), 0, 0, 0, 0);
    assert [r][1..] == [];
    assert Dated([r]) == [r] && Undated([r]) == [];
    assert SortDesc([r], DateRank) == [r];
    assert SortByWorkDate([r]) == [r];
  }

  // ---------------------------------------------------------------------------
  // The four reports
  // ---------------------------------------------------------------------------

  datatype Report =
    | NoData(empId: string)
    | Report(empId: string, empName: string, statusCounts: map<string, nat>,
             series: Option<MinuteSeries>, seriesTimes: Option<TimeSeries>, analysis: Analysis)

  function FilledRows(g: seq<Row>): (h: seq<Row>)
    ensures FilledFrom(h, g)
  {
    seq(|g|, i requires 0 <= i < |g| => FillRow(g[i]))
  }

  // `ReportApp`, `ReportRoutes` and `ReportStorage1` read `workDate`, `checkInDt`,
  // `checkOutDt` and the minute columns without a guard. Every non-empty frame the `_to_df`
  // functions build has all of them (`ToDfNormalizing`, `ToDfStorage1`), so the `KeyError` a
  // frame without them would raise is not modelled: a `Row` always carries those fields.

  /** `_build_employee_report` of `app.py`: minutes filled from the times, the minute series
      with `total` and the clock-time series. */
  function ReportApp(f: Frame, empId: string): (r: Result<Report, string>)
    ensures r.Err? <==> f.rows != [] && "empId" !in f.columns
    ensures r == Ok(NoData(empId)) <==> (f.rows == [] || "empId" in f.columns) && EmployeeRows(f.rows, empId) == []
    ensures r.Ok? && r.value.Report? ==> r.value.empId == empId
    ensures r.Ok? && r.value.Report? ==>
      && r.value.series.Some? && r.value.series.value.total.Some? && r.value.seriesTimes.Some?
      && |r.value.series.value.labels| == |EmployeeRows(f.rows, empId)|
  {
    match Select(f, empId)
    case Err(e) => Err(e)
    case Ok(g) =>
      if g == [] then Ok(NoData(empId))
      else
        var h := FilledRows(g);
        var s := SortByWorkDate(h);
        var name := EmpName(h, f.columns, empId);
        Ok(Report(empId, name, GuardedStatusCounts(h, f.columns),
                  Some(MinuteSeriesOf(s, Labels(s), true)), Some(PlainTimes(s)),
                  AnalysisText(name, ReportCountsOf(h))))
  }

  /** `_build_employee_report` of `routes.py`: no filling, only the clock-time series, and
      the minute sums guarded by their columns. */
  function ReportRoutes(f: Frame, empId: string): (r: Result<Report, string>)
    ensures r.Err? <==> f.rows != [] && "empId" !in f.columns
    ensures r == Ok(NoData(empId)) <==> (f.rows == [] || "empId" in f.columns) && EmployeeRows(f.rows, empId) == []
    ensures r.Ok? && r.value.Report? ==> r.value.empId == empId
    ensures r.Ok? && r.value.Report? ==>
      && r.value.series.None? && r.value.seriesTimes.Some?
      && |r.value.seriesTimes.value.labels| == |EmployeeRows(f.rows, empId)|
  {
    match Select(f, empId)
    case Err(e) => Err(e)
    case Ok(g) =>
      if g == [] then Ok(NoData(empId))
      else
        var name := EmpName(g, f.columns, empId);
        var c := ReportCountsOf(g);
        var c := c.(unpaid := if "unpaidMinutes" in f.columns then c.unpaid else 0,
                    overtime := if "overtimeWorkMinutes" in f.columns then c.overtime else 0);
        Ok(Report(empId, name, GuardedStatusCounts(g, f.columns), None, Some(SeriesTimesOf(g)), AnalysisText(name, c)))
  }

  /** `_build_employee_report` of `storage1.py`: the minute series without `total`. */
  function ReportStorage1(f: Frame, empId: string): (r: Result<Report, string>)
    ensures r.Err? <==> f.rows != [] && "empId" !in f.columns
    ensures r == Ok(NoData(empId)) <==> (f.rows == [] || "empId" in f.columns) && EmployeeRows(f.rows, empId) == []
    ensures r.Ok? && r.value.Report? ==> r.value.empId == empId
    ensures r.Ok? && r.value.Report? ==>
      && r.value.series.Some? && r.value.series.value.total.None? && r.value.seriesTimes.None?
      && |r.value.series.value.labels| == |EmployeeRows(f.rows, empId)|
  {
    match Select(f, empId)
    case Err(e) => Err(e)
    case Ok(g) =>
      if g == [] then Ok(NoData(empId))
      else
        var s := SortByWorkDate(g);
        var name := EmpName(g, f.columns, empId);
        Ok(Report(empId, name, GuardedStatusCounts(g, f.columns), Some(MinuteSeriesOf(s, Labels(s), false)), None,
                  AnalysisText(name, ReportCountsOf(g))))
  }

  /** `_build_employee_report` of `storage2.py`: no column guards, so a frame without a name,
      status or work type column raises `KeyError`. */
  function ReportStorage2(f: Frame, empId: string): (r: Result<Report, string>)
    ensures r.Err? ==> r.error == "KeyError"
    ensures r.Err? <==>
      f.rows != [] && ("empId" !in f.columns || (EmployeeRows(f.rows, empId) != [] &&
        ("empName" !in f.columns || "workStatus" !in f.columns || "workType" !in f.columns)))
    ensures r == Ok(NoData(empId)) <==> (f.rows == [] || "empId" in f.columns) && EmployeeRows(f.rows, empId) == []
    ensures r.Ok? && r.value.Report? ==> r.value.empId == empId
    ensures r.Ok? && r.value.Report? ==>
      && r.value.series.Some? && r.value.series.value.total.None? && r.value.seriesTimes.None?
      && |r.value.series.value.labels| == |EmployeeRows(f.rows, empId)|
  {
    match Select(f, empId)
    case Err(e) => Err(e)
    case Ok(g) =>
      if g == [] then Ok(NoData(empId))
      else if "empName" !in f.columns || "workStatus" !in f.columns || "workType" !in f.columns then Err("KeyError")
      else
        var s := SortByWorkDate(g);
        var name := if FirstName(g).Some? then FirstName(g).value else empId;
        Ok(Report(empId, name, StatusCounts(g),
                  Some(MinuteSeriesOf(s, seq(|s|, i requires 0 <= i < |s| => Storage2Label(s[i])), false)), None,
                  AnalysisText(name, ReportCountsOf(g))))
  }

  /** Without rows for the employee every report says there is no data, and it never does
      when there are rows. */
  lemma NoDataExactly(f: Frame, empId: string)
    requires "empId" in f.columns || f.rows == []
    ensures ReportApp(f, empId) == Ok(NoData(empId)) <==> EmployeeRows(f.rows, empId) == []
    ensures ReportRoutes(f, empId) == Ok(NoData(empId)) <==> EmployeeRows(f.rows, empId) == []
    ensures ReportStorage1(f, empId) == Ok(NoData(empId)) <==> EmployeeRows(f.rows, empId) == []
    ensures ReportStorage2(f, empId) == Ok(NoData(empId)) <==> EmployeeRows(f.rows, empId) == []
  {
    assert Select(f, empId) == Ok(EmployeeRows(f.rows, empId));
  }

  /** The `storage2.py` frames always carry the columns its report reads unguarded, so that
      report never raises. */
  lemma Storage2ReportNeverRaises(p: Parsers, records: seq<RawRecord>, empId: string)
    ensures ReportStorage2(ToDfStorage2(p, records), empId).Ok?
  {
    if records != [] {
      Storage2Defended(p, records);
    }
  }

  /** The app's report: its series all have one entry per row of the employee, and the two
      charts share their date labels. */
  lemma ReportAppShape(f: Frame, empId: string)
    requires ReportApp(f, empId).Ok? && ReportApp(f, empId).value.Report?
    ensures var r := ReportApp(f, empId).value;
      var n := |EmployeeRows(f.rows, empId)|;
      && |r.series.value.labels| == n && |r.series.value.normal| == n && |r.series.value.total.value| == n
      && |r.seriesTimes.value.checkInMinutes| == n && |r.seriesTimes.value.checkOutMinutes| == n
      && r.seriesTimes.value.labels == r.series.value.labels
  {
    var g := EmployeeRows(f.rows, empId);
    assert Select(f, empId) == Ok(g);
    var h := FilledRows(g);
    SortByWorkDateOrdered(h);
    assert |multiset(SortByWorkDate(h))| == |multiset(h)|;
  }

  /** The `storage1.py` report: its minute series has no `total`, and its labels and its
      normal, overtime and unpaid minutes are those of the employee's rows sorted by
      `workDate`, one entry per row, undated rows last and dates ascending. */
  lemma ReportStorage1Series(f: Frame, empId: string)
    requires ReportStorage1(f, empId).Ok? && ReportStorage1(f, empId).value.Report?
    ensures var r := ReportStorage1(f, empId).value;
      var g := EmployeeRows(f.rows, empId);
      var s := SortByWorkDate(g);
      && r.seriesTimes.None? && r.series.Some? && r.series.value.total.None?
      && multiset(s) == multiset(g)
      && |r.series.value.labels| == |g| && |r.series.value.normal| == |g|
      && |r.series.value.overtime| == |g| && |r.series.value.unpaid| == |g|
      && (forall i :: 0 <= i < |g| ==>
            && r.series.value.labels[i] == Label(s[i]) && r.series.value.normal[i] == s[i].normal
            && r.series.value.overtime[i] == s[i].overtime && r.series.value.unpaid[i] == s[i].unpaid)
      && (forall i, j :: 0 <= i < j < |s| && s[j].workDate.Some? ==> s[i].workDate.Some?)
      && (forall i, j :: (0 <= i < j < |s| && s[j].workDate.Some? && ValidDate(s[i].workDate.value) &&
                          ValidDate(s[j].workDate.value)) ==> !DateBefore(s[j].workDate.value, s[i].workDate.value))
  {
    var g := EmployeeRows(f.rows, empId);
    assert Select(f, empId) == Ok(g);
    SortByWorkDateOrdered(g);
    assert |multiset(SortByWorkDate(g))| == |multiset(g)|;
  }

  /** The `routes.py` report guards the minute sums by their columns: without an
      `unpaidMinutes` column there is no unpaid-minutes bullet, without an
      `overtimeWorkMinutes` column no overtime bullet, and with the column the bullet is there
      exactly when the employee's sum is positive. */
  lemma ReportRoutesGuardsSums(f: Frame, empId: string)
    requires ReportRoutes(f, empId).Ok? && ReportRoutes(f, empId).value.Report?
    ensures var r := ReportRoutes(f, empId).value;
      var g := EmployeeRows(f.rows, empId);
      var b := r.analysis.bullets;
      && |b| >= 1
      && ("unpaidMinutes" !in f.columns ==> '무' !in Heads(b[1..]))
      && ("overtimeWorkMinutes" !in f.columns ==> '야' !in Heads(b[1..]))
      && ("unpaidMinutes" in f.columns ==> ('무' in Heads(b[1..]) <==> UnpaidSum(g) > 0))
      && ("overtimeWorkMinutes" in f.columns ==> ('야' in Heads(b[1..]) <==> OvertimeSum(g) > 0))
  {
    var g := EmployeeRows(f.rows, empId);
    assert Select(f, empId) == Ok(g);
    var c0 := ReportCountsOf(g);
    var c := c0.(unpaid := if "unpaidMinutes" in f.columns then c0.unpaid else 0,
                 overtime := if "overtimeWorkMinutes" in f.columns then c0.overtime else 0);
    BulletsRules(c);
  }

  /** The app's report names the employee by the id or by one of the employee's names. */
  lemma ReportAppName(f: Frame, empId: string)
    requires ReportApp(f, empId).Ok? && ReportApp(f, empId).value.Report?
    ensures var r := ReportApp(f, empId).value;
      r.empName == empId || exists x :: x in f.rows && x.empId == Some(empId) && x.empName == Some(r.empName)
  {
    var g := EmployeeRows(f.rows, empId);
    assert Select(f, empId) == Ok(g);
    var h := FilledRows(g);
    if "empName" in f.columns && FirstName(h).Some? {
      var i :| 0 <= i < |h| && h[i].empName == FirstName(h) && forall j :: 0 <= j < i ==> h[j].empName.None?;
      assert h[i] == FillRow(g[i]);
      assert g[i] in g;
    }
  }

  /** The app's histogram has no empty bar, and a bar for each status of the employee's rows
      when the frame has the status column. */
  lemma ReportAppCounts(f: Frame, empId: string)
    requires ReportApp(f, empId).Ok? && ReportApp(f, empId).value.Report?
    ensures var r := ReportApp(f, empId).value;
      && (forall s :: s in r.statusCounts ==> r.statusCounts[s] > 0)
      && ("workStatus" in f.columns ==> forall x :: x in EmployeeRows(f.rows, empId) ==> StatusLabel(FillRow(x)) in r.statusCounts)
  {
    var g := EmployeeRows(f.rows, empId);
    assert Select(f, empId) == Ok(g);
    var h := FilledRows(g);
    assert ReportApp(f, empId).value.statusCounts == GuardedStatusCounts(h, f.columns);
    StatusCountsExact(h);
    forall x | x in g ensures exists i :: 0 <= i < |h| && StatusLabel(h[i]) == StatusLabel(FillRow(x)) {
      var i :| 0 <= i < |g| && g[i] == x;
      assert h[i] == FillRow(x);
    }
  }
}
