/**
 * The computed columns of the payment-history-profile (PHP) update
 * (calc_new.py, calculate_php_periods and calculate_php_updates).
 *
 * A loan's 36-month profile is the concatenation of three 12-character
 * year strings, oldest first. A late reversal marks every month of the
 * loan's PHP period as `D` (bankruptcy months, `B`, are kept); otherwise
 * the month of the reversal snapshot receives the one-character status
 * byte of the account status. The result is cut back into year strings
 * and each year is flagged `Y` when it changed.
 */
module PhpProfile {
  import opened Optional
  import opened SqlText
  import opened PhpCalendar

  const HistoryLength := 36
  const YearLength := 12

  /** Account-status codes with a profile byte, in the order of the bytes `0`..`6`. */
  const StatusCodes: seq<string> := ["11", "71", "78", "80", "82", "83", "84"]

  /** `account_status_php_byte` (calc_new.py:110-118); NULL for every other code. */
  function AccountStatusPhpByte(accountStatus: string): (b: Option<char>)
    ensures b.Some? <==> accountStatus in StatusCodes
    ensures forall i :: 0 <= i < |StatusCodes| ==>
      (accountStatus == StatusCodes[i] <==> b == Some(('0' as int + i) as char))
  {
    if accountStatus == "11" then Some('0')
    else if accountStatus == "71" then Some('1')
    else if accountStatus == "78" then Some('2')
    else if accountStatus == "80" then Some('3')
    else if accountStatus == "82" then Some('4')
    else if accountStatus == "83" then Some('5')
    else if accountStatus == "84" then Some('6')
    else None
  }

  // ---------------------------------------------------------------------------
  // Per-loan aggregates
  // ---------------------------------------------------------------------------

  /** The columns of a reversal row that the per-loan aggregates read. */
  datatype ReversalRow = ReversalRow(lnNo: int, pymtSsMonth: int, revSsMonth: int, revAftr30Days: bool)

  /** The PHP period of a loan: its earliest payment month and its latest reversal month. */
  datatype Period = Period(startMonthPhp: int, endMonthPhp: int)

  /**
   * `calculate_php_periods` (calc_new.py:57-73) for one loan. The inner
   * grouping takes the earliest payment month per reversal and the outer
   * one the earliest of those, which is the earliest over all the loan's
   * rows; the latest reversal month likewise. NULL when the loan has no row.
   */
  function PhpPeriod(rows: seq<ReversalRow>, lnNo: int): (p: Option<Period>)
    ensures p.None? <==> forall i :: 0 <= i < |rows| ==> rows[i].lnNo != lnNo
    ensures p.Some? ==>
      && (exists i :: 0 <= i < |rows| && rows[i].lnNo == lnNo && rows[i].pymtSsMonth == p.value.startMonthPhp)
      && (exists i :: 0 <= i < |rows| && rows[i].lnNo == lnNo && rows[i].revSsMonth == p.value.endMonthPhp)
      && (forall i :: 0 <= i < |rows| && rows[i].lnNo == lnNo ==>
            p.value.startMonthPhp <= rows[i].pymtSsMonth && rows[i].revSsMonth <= p.value.endMonthPhp)
  {
    if rows == [] then None
    else
      var rest, last := PhpPeriod(rows[..|rows| - 1], lnNo), rows[|rows| - 1];
      if last.lnNo != lnNo then rest
      else match rest
        case None => Some(Period(last.pymtSsMonth, last.revSsMonth))
        case Some(q) => Some(Period(Min(q.startMonthPhp, last.pymtSsMonth), Max(q.endMonthPhp, last.revSsMonth)))
  }

  /**
   * `has_late_reversal` (calc_new.py:121): MAX of the late-reversal flag
   * over the rows of the same loan.
   */
  function HasLateReversal(rows: seq<ReversalRow>, lnNo: int): (r: bool)
    ensures r <==> exists i :: 0 <= i < |rows| && rows[i].lnNo == lnNo && rows[i].revAftr30Days
  {
    if rows == [] then false
    else
      var last := rows[|rows| - 1];
      HasLateReversal(rows[..|rows| - 1], lnNo) || (last.lnNo == lnNo && last.revAftr30Days)
  }

  // ---------------------------------------------------------------------------
  // Positions in the 36-month profile
  // ---------------------------------------------------------------------------

  /** The month shown at 1-based position `pos` of a profile whose first month is `phpStart`. */
  function MonthAt(phpStart: int, pos: int): int
  {
    phpStart + pos - 1
  }

  datatype Window = Window(startPos: int, endPos: int)

  /**
   * `update_start_pos` and `update_end_pos` (calc_new.py:124-125): the
   * profile positions of the PHP period, clamped to 1..36. The window holds
   * exactly the positions of the profile whose month lies in the period.
   */
  function UpdateWindow(phpStart: int, period: Period): (w: Window)
    ensures 1 <= w.startPos && w.endPos <= HistoryLength
    ensures forall pos :: w.startPos <= pos <= w.endPos <==>
      1 <= pos <= HistoryLength && period.startMonthPhp <= MonthAt(phpStart, pos) <= period.endMonthPhp
  {
    Window(Max(1, MonthsDiff(phpStart, period.startMonthPhp) + 1),
           Min(HistoryLength, MonthsDiff(phpStart, period.endMonthPhp) + 1))
  }

  /**
   * `snapshot_php_position` (calc_new.py:128-132): the position whose month is
   * the snapshot month, NULL when the snapshot month is outside the period.
   */
  function SnapshotPhpPosition(phpStart: int, period: Period, snapshotMonth: int): (p: Option<int>)
    ensures p.Some? <==> period.startMonthPhp <= snapshotMonth <= period.endMonthPhp
    ensures p.Some? ==> MonthAt(phpStart, p.value) == snapshotMonth
  {
    if period.startMonthPhp <= snapshotMonth <= period.endMonthPhp
    then Some(MonthsDiff(phpStart, snapshotMonth) + 1)
    else None
  }

  /** A snapshot position inside the 36 months always lies in the update window. */
  lemma SnapshotInsideWindow(phpStart: int, period: Period, snapshotMonth: int)
    requires SnapshotPhpPosition(phpStart, period, snapshotMonth).Some?
    ensures var p := SnapshotPhpPosition(phpStart, period, snapshotMonth).value;
            var w := UpdateWindow(phpStart, period);
            1 <= p <= HistoryLength <==> w.startPos <= p <= w.endPos
  {
    var p := SnapshotPhpPosition(phpStart, period, snapshotMonth).value;
    assert MonthAt(phpStart, p) == snapshotMonth;
  }

  // ---------------------------------------------------------------------------
  // The two edits of the profile string
  // ---------------------------------------------------------------------------

  /** What the source's SUBSTRING calls in the late-reversal branch need to be defined. */
  predicate LateWindowDefined(w: Window)
  {
    1 <= w.startPos && w.endPos <= HistoryLength && (w.endPos < HistoryLength ==> w.startPos <= w.endPos + 1)
  }

  /**
   * The late-reversal branch of `php_36_updated` (calc_new.py:137-160):
   * every non-`B` character of positions startPos..endPos becomes `D`.
   */
  function LateReversalEdit(php: string, w: Window): string
    requires LateWindowDefined(w)
  {
    if w.startPos > 1 && w.endPos < HistoryLength then
      Substring(php, 1, w.startPos - 1)
      + ReplaceWithD(Substring(php, w.startPos, w.endPos - w.startPos + 1), NotB)
      + SubstringFrom(php, w.endPos + 1)
    else if w.startPos == 1 && w.endPos < HistoryLength then
      ReplaceWithD(Substring(php, 1, w.endPos), NotB)
      + SubstringFrom(php, w.endPos + 1)
    else if w.startPos > 1 && w.endPos == HistoryLength then
      Substring(php, 1, w.startPos - 1)
      + ReplaceWithD(SubstringFrom(php, w.startPos), NotB)
    else
      ReplaceWithD(php, NotB)
  }

  /** The character a late reversal leaves at 0-based index `i`. */
  function LateMark(php: string, w: Window, i: int): char
    requires 0 <= i < |php|
  {
    if w.startPos <= i + 1 <= w.endPos && php[i] != 'B' then 'D' else php[i]
  }

  /** Marking the slice `lo..hi` of a string and putting the pieces back together. */
  lemma MarkedSlice(php: string, lo: int, hi: int)
    requires 0 <= lo <= hi <= |php|
    ensures var r := php[..lo] + ReplaceWithD(php[lo..hi], NotB) + php[hi..];
            |r| == |php| && forall i :: 0 <= i < |php| ==> r[i] == if lo <= i < hi && php[i] != 'B' then 'D' else php[i]
  {
    var a, m, c := php[..lo], ReplaceWithD(php[lo..hi], NotB), php[hi..];
    var r := a + m + c;
    forall i | 0 <= i < |php| ensures r[i] == if lo <= i < hi && php[i] != 'B' then 'D' else php[i] {
      if i < lo {
        assert r[i] == a[i];
      } else if i < hi {
        assert r[i] == m[i - lo];
      } else {
        assert r[i] == c[i - hi];
      }
    }
  }

  /** The branch of the late-reversal edit for a window strictly inside the profile. */
  lemma LateEditInterior(php: string, w: Window)
    requires |php| <= HistoryLength && LateWindowDefined(w) && w.startPos > 1 && w.endPos < HistoryLength
    ensures var lo, hi := Min(w.startPos - 1, |php|), Min(w.endPos, |php|);
            LateReversalEdit(php, w) == php[..lo] + ReplaceWithD(php[lo..hi], NotB) + php[hi..]
  {
  }

  /** The branch of the late-reversal edit for a window starting at the first month. */
  lemma LateEditFromStart(php: string, w: Window)
    requires |php| <= HistoryLength && LateWindowDefined(w) && w.startPos == 1 && w.endPos < HistoryLength
    ensures var hi := Min(w.endPos, |php|);
            LateReversalEdit(php, w) == php[..0] + ReplaceWithD(php[0..hi], NotB) + php[hi..]
  {
    var hi := Min(w.endPos, |php|);
    assert php[..0] == [] && php[0..hi] == php[..hi];
  }

  /** The branch of the late-reversal edit for a window reaching the last month. */
  lemma LateEditToEnd(php: string, w: Window)
    requires |php| <= HistoryLength && LateWindowDefined(w) && w.startPos > 1 && w.endPos == HistoryLength
    ensures var lo := Min(w.startPos - 1, |php|);
            LateReversalEdit(php, w) == php[..lo] + ReplaceWithD(php[lo..|php|], NotB) + php[|php|..]
  {
    var lo := Min(w.startPos - 1, |php|);
    assert php[|php|..] == [] && php[lo..|php|] == php[lo..];
  }

  /** The branch of the late-reversal edit for a window covering the whole profile. */
  lemma LateEditWhole(php: string, w: Window)
    requires |php| <= HistoryLength && LateWindowDefined(w) && w.startPos == 1 && w.endPos == HistoryLength
    ensures LateReversalEdit(php, w) == php[..0] + ReplaceWithD(php[0..|php|], NotB) + php[|php|..]
  {
    assert php[..0] == [] && php[0..|php|] == php && php[|php|..] == [];
  }

  /**
   * All four branches of the late-reversal edit do the same thing to a profile
   * of at most 36 characters: inside the window every non-`B` becomes `D`,
   * every `B` is kept, nothing outside the window changes, the length is kept.
   */
  lemma LateReversalMarksWindow(php: string, w: Window)
    requires |php| <= HistoryLength && LateWindowDefined(w)
    ensures |LateReversalEdit(php, w)| == |php|
    ensures forall i :: 0 <= i < |php| ==> LateReversalEdit(php, w)[i] == LateMark(php, w, i)
  {
    var lo, hi := Min(w.startPos - 1, |php|), if w.endPos < HistoryLength then Min(w.endPos, |php|) else |php|;
    if w.startPos > 1 && w.endPos < HistoryLength {
      LateEditInterior(php, w);
    } else if w.startPos == 1 && w.endPos < HistoryLength {
      LateEditFromStart(php, w);
    } else if w.startPos > 1 {
      LateEditToEnd(php, w);
    } else {
      LateEditWhole(php, w);
    }
    MarkedSlice(php, lo, hi);
    var r := LateReversalEdit(php, w);
    forall i | 0 <= i < |php| ensures r[i] == LateMark(php, w, i) {
      assert (lo <= i < hi) == (w.startPos <= i + 1 <= w.endPos);
    }
  }

  /**
   * The snapshot branch of `php_36_updated` (calc_new.py:163-173): the
   * character at 1-based position `pos` becomes the status byte.
   */
  function SnapshotEdit(php: string, pos: int, statusByte: char): string
    requires pos >= 1
  {
    if pos == 1 then [statusByte] + SubstringFrom(php, 2)
    else if pos == HistoryLength then Substring(php, 1, HistoryLength - 1) + [statusByte]
    else Substring(php, 1, pos - 1) + [statusByte] + SubstringFrom(php, pos + 1)
  }

  /**
   * On a 36-character profile the three cases of the snapshot edit (first,
   * last, interior position) agree: exactly position `pos` is replaced.
   */
  lemma SnapshotEditReplacesOne(php: string, pos: int, statusByte: char)
    requires |php| == HistoryLength && 1 <= pos <= HistoryLength
    ensures SnapshotEdit(php, pos, statusByte) == php[pos - 1 := statusByte]
  {
    var r := SnapshotEdit(php, pos, statusByte);
    var want := php[pos - 1 := statusByte];
    if pos == 1 {
      assert r == [statusByte] + php[1..];
    } else if pos == HistoryLength {
      assert r == php[..HistoryLength - 1] + [statusByte];
    } else {
      assert r == php[..pos - 1] + [statusByte] + php[pos..];
    }
    assert |r| == |want|;
    forall i | 0 <= i < |r| ensures r[i] == want[i] {
    }
  }

  /**
   * A snapshot position past the profile (a snapshot month more than 36 months
   * after the profile start) appends the byte instead: the profile grows to
   * 37 characters, and its three year strings are the original ones.
   */
  lemma SnapshotPastProfile(php: string, pos: int, statusByte: char)
    requires |php| == HistoryLength && pos > HistoryLength
    ensures SnapshotEdit(php, pos, statusByte) == php + [statusByte]
    ensures SplitYears(SnapshotEdit(php, pos, statusByte)) == SplitYears(php)
  {
    var r := SnapshotEdit(php, pos, statusByte);
    assert Substring(php, 1, pos - 1) == php;
    assert SubstringFrom(php, pos + 1) == [];
    assert r == php + [statusByte];
    assert r[..12] == php[..12] && r[12..24] == php[12..24] && r[24..36] == php[24..36];
  }

  /** What the SUBSTRING calls of `php_36_updated` need to be defined. */
  predicate EditDefined(hasLateReversal: bool, w: Window, snapshotPos: Option<int>, statusByte: Option<char>)
  {
    && (hasLateReversal ==> LateWindowDefined(w))
    && (!hasLateReversal && snapshotPos.Some? && statusByte.Some? ==> snapshotPos.value >= 1)
  }

  /** `php_36_updated` (calc_new.py:135-177). */
  function PhpUpdated(php: string, hasLateReversal: bool, w: Window,
                      snapshotPos: Option<int>, statusByte: Option<char>): string
    requires EditDefined(hasLateReversal, w, snapshotPos, statusByte)
  {
    if hasLateReversal then LateReversalEdit(php, w)
    else if snapshotPos.Some? && statusByte.Some? then SnapshotEdit(php, snapshotPos.value, statusByte.value)
    else php
  }

  // ---------------------------------------------------------------------------
  // Year strings and change flags
  // ---------------------------------------------------------------------------

  datatype YearStrings = YearStrings(previous2Yr: string, previous1Yr: string, currentYr: string)

  /** `php_36_original` (calc_new.py:97): the three year strings, oldest first. */
  function JoinYears(y: YearStrings): string
  {
    y.previous2Yr + y.previous1Yr + y.currentYr
  }

  /**
   * `new_previous_2_yr`, `new_previous_1_yr`, `new_current_yr`
   * (calc_new.py:180-182): characters 1-12, 13-24 and 25-36.
   */
  function SplitYears(php: string): (y: YearStrings)
    ensures |php| == HistoryLength ==>
      && |y.previous2Yr| == YearLength && |y.previous1Yr| == YearLength && |y.currentYr| == YearLength
      && JoinYears(y) == php
  {
    YearStrings(Substring(php, 1, 12), Substring(php, 13, 12), Substring(php, 25, 12))
  }

  /** Splitting undoes joining for year strings of 12 characters. */
  lemma SplitJoinYears(y: YearStrings)
    requires |y.previous2Yr| == YearLength && |y.previous1Yr| == YearLength && |y.currentYr| == YearLength
    ensures SplitYears(JoinYears(y)) == y
  {
    var p := JoinYears(y);
    var s := SplitYears(p);
    assert s.previous2Yr == p[..12] == y.previous2Yr;
    assert s.previous1Yr == p[12..24] == y.previous1Yr;
    assert s.currentYr == p[24..] == y.currentYr;
  }

  /** `update_*` (calc_new.py:185-187): `Y` when a year string changed, else `N`. */
  function ChangeFlag(newYear: string, oldYear: string): (f: char)
    ensures f == 'Y' || f == 'N'
    ensures f == 'Y' <==> newYear != oldYear
  {
    if newYear != oldYear then 'Y' else 'N'
  }

  // ---------------------------------------------------------------------------
  // One row of calculate_php_updates
  // ---------------------------------------------------------------------------

  /** The columns of a reversal row the profile update reads. */
  datatype SorRow = SorRow(
    revMonthSnapshot: Date,
    otod: Date,
    accountStatus: string,
    history: YearStrings)

  /** The computed columns of calculate_php_updates, in the order the query defines them. */
  datatype PhpUpdate = PhpUpdate(
    snapshotMonth: int,
    php36Original: string,
    phpStartDate: int,
    statusByte: Option<char>,
    window: Window,
    snapshotPos: Option<int>,
    php36Updated: string,
    newYears: YearStrings,
    updatePrev2Yr: char,
    updatePrev1Yr: char,
    updateCurrentYr: char)

  /** The rows whose SUBSTRING arguments stay in the range the model covers. */
  predicate RowDefined(row: SorRow, period: Period, hasLateReversal: bool, today: Date)
  {
    && ValidDate(row.revMonthSnapshot)
    && var phpStart := PhpStartMonth(row.otod, today);
       EditDefined(hasLateReversal, UpdateWindow(phpStart, period),
                   SnapshotPhpPosition(phpStart, period, SnapshotMonth(row.revMonthSnapshot)),
                   AccountStatusPhpByte(row.accountStatus))
  }

  /**
   * The chain of computed columns of calculate_php_updates
   * (calc_new.py:90-187), each defined from the ones before it.
   * `today` stands for CURRENT_DATE.
   */
  function CalculatePhpUpdate(row: SorRow, period: Period, hasLateReversal: bool, today: Date): (u: PhpUpdate)
    requires RowDefined(row, period, hasLateReversal, today)
    ensures 1 <= u.window.startPos && u.window.endPos <= HistoryLength
    ensures u.updatePrev2Yr == 'Y' <==> u.newYears.previous2Yr != row.history.previous2Yr
    ensures u.updatePrev1Yr == 'Y' <==> u.newYears.previous1Yr != row.history.previous1Yr
    ensures u.updateCurrentYr == 'Y' <==> u.newYears.currentYr != row.history.currentYr
    ensures |u.php36Updated| == HistoryLength ==> JoinYears(u.newYears) == u.php36Updated
  {
    var snapshotMonth := SnapshotMonth(row.revMonthSnapshot);
    var php36Original := JoinYears(row.history);
    var phpStartDate := PhpStartMonth(row.otod, today);
    var statusByte := AccountStatusPhpByte(row.accountStatus);
    var window := UpdateWindow(phpStartDate, period);
    var snapshotPos := SnapshotPhpPosition(phpStartDate, period, snapshotMonth);
    var php36Updated := PhpUpdated(php36Original, hasLateReversal, window, snapshotPos, statusByte);
    var newYears := SplitYears(php36Updated);
    PhpUpdate(snapshotMonth, php36Original, phpStartDate, statusByte, window, snapshotPos,
              php36Updated, newYears,
              ChangeFlag(newYears.previous2Yr, row.history.previous2Yr),
              ChangeFlag(newYears.previous1Yr, row.history.previous1Yr),
              ChangeFlag(newYears.currentYr, row.history.currentYr))
  }

  /** The history fields hold 12 characters each. */
  predicate FullHistory(row: SorRow)
  {
    |row.history.previous2Yr| == YearLength && |row.history.previous1Yr| == YearLength
    && |row.history.currentYr| == YearLength
  }

  /** Two 36-character profiles differ in year `lo/12` iff some index of that year differs. */
  lemma YearDiffers(x: string, y: string, lo: int)
    requires |x| == HistoryLength && |y| == HistoryLength && lo in {0, 12, 24}
    ensures x[lo..lo + YearLength] != y[lo..lo + YearLength]
            <==> exists i :: lo <= i < lo + YearLength && x[i] != y[i]
  {
    if x[lo..lo + YearLength] != y[lo..lo + YearLength] {
      var a, b := x[lo..lo + YearLength], y[lo..lo + YearLength];
      assert |a| == |b|;
      var k :| 0 <= k < |a| && a[k] != b[k];
      assert x[lo + k] != y[lo + k];
    } else {
      forall i | lo <= i < lo + YearLength ensures x[i] == y[i] {
        assert x[lo..lo + YearLength][i - lo] == x[i];
      }
    }
  }

  /** A month of the window that a late reversal actually changes. */
  predicate LateChangeIn(php: string, w: Window, lo: int)
    requires 0 <= lo && lo + YearLength <= |php|
  {
    exists i :: lo <= i < lo + YearLength && w.startPos <= i + 1 <= w.endPos && php[i] != 'B' && php[i] != 'D'
  }

  /** One year of a late-reversal edit differs from the original iff the window changes a month in it. */
  lemma LateYearChanged(orig: string, w: Window, lo: int)
    requires |orig| == HistoryLength && LateWindowDefined(w) && lo in {0, 12, 24}
    ensures var upd := LateReversalEdit(orig, w);
            |upd| == HistoryLength
            && (upd[lo..lo + YearLength] != orig[lo..lo + YearLength] <==> LateChangeIn(orig, w, lo))
  {
    var upd := LateReversalEdit(orig, w);
    LateReversalMarksWindow(orig, w);
    YearDiffers(upd, orig, lo);
    forall i | lo <= i < lo + YearLength
      ensures upd[i] != orig[i] <==> w.startPos <= i + 1 <= w.endPos && orig[i] != 'B' && orig[i] != 'D'
    {
      assert upd[i] == LateMark(orig, w, i);
    }
  }

  /**
   * With a late reversal, a year is flagged `Y` exactly when the update window
   * holds a month of that year that was neither `B` nor already `D`.
   */
  lemma LateReversalFlags(row: SorRow, period: Period, today: Date)
    requires RowDefined(row, period, true, today) && FullHistory(row)
    ensures var u := CalculatePhpUpdate(row, period, true, today);
            && (u.updatePrev2Yr == 'Y' <==> LateChangeIn(u.php36Original, u.window, 0))
            && (u.updatePrev1Yr == 'Y' <==> LateChangeIn(u.php36Original, u.window, 12))
            && (u.updateCurrentYr == 'Y' <==> LateChangeIn(u.php36Original, u.window, 24))
  {
    var u := CalculatePhpUpdate(row, period, true, today);
    var orig, w, upd := u.php36Original, u.window, u.php36Updated;
    assert orig == JoinYears(row.history) && |orig| == HistoryLength;
    assert upd == LateReversalEdit(orig, w);
    LateYearChanged(orig, w, 0);
    LateYearChanged(orig, w, 12);
    LateYearChanged(orig, w, 24);
    YearFlags(row.history, upd);
  }

  /** The new year strings of an edited profile differ from the old ones exactly where the profiles' years differ. */
  lemma YearFlags(history: YearStrings, upd: string)
    requires |history.previous2Yr| == YearLength && |history.previous1Yr| == YearLength
    requires |history.currentYr| == YearLength && |upd| == HistoryLength
    ensures var orig, n := JoinYears(history), SplitYears(upd);
            && (n.previous2Yr != history.previous2Yr <==> upd[0..12] != orig[0..12])
            && (n.previous1Yr != history.previous1Yr <==> upd[12..24] != orig[12..24])
            && (n.currentYr != history.currentYr <==> upd[24..36] != orig[24..36])
  {
    var orig, n := JoinYears(history), SplitYears(upd);
    assert n.previous2Yr == upd[0..12] && n.previous1Yr == upd[12..24] && n.currentYr == upd[24..36];
    assert orig[0..12] == history.previous2Yr;
    assert orig[12..24] == history.previous1Yr;
    assert orig[24..36] == history.currentYr;
  }

  /** One year of a snapshot edit differs from the original iff it holds the position and the byte is new. */
  lemma SnapshotYearChanged(orig: string, p: int, b: char, lo: int)
    requires |orig| == HistoryLength && 1 <= p <= HistoryLength && lo in {0, 12, 24}
    ensures var upd := orig[p - 1 := b];
            upd[lo..lo + YearLength] != orig[lo..lo + YearLength]
            <==> lo < p <= lo + YearLength && orig[p - 1] != b
  {
    var upd := orig[p - 1 := b];
    YearDiffers(upd, orig, lo);
    if lo < p <= lo + YearLength && orig[p - 1] != b {
      assert upd[p - 1] != orig[p - 1];
    }
  }

  /**
   * Without a late reversal and with a snapshot position inside the profile
   * and a status byte, only the year holding the snapshot position can be
   * flagged, and it is flagged iff the byte differs from what was there.
   */
  lemma SnapshotFlags(row: SorRow, period: Period, today: Date)
    requires RowDefined(row, period, false, today) && FullHistory(row)
    requires var u := CalculatePhpUpdate(row, period, false, today);
             u.snapshotPos.Some? && 1 <= u.snapshotPos.value <= HistoryLength && u.statusByte.Some?
    ensures var u := CalculatePhpUpdate(row, period, false, today);
            var p, changed := u.snapshotPos.value, u.php36Original[u.snapshotPos.value - 1] != u.statusByte.value;
            && u.php36Updated == u.php36Original[p - 1 := u.statusByte.value]
            && (u.updatePrev2Yr == 'Y' <==> p <= 12 && changed)
            && (u.updatePrev1Yr == 'Y' <==> 12 < p <= 24 && changed)
            && (u.updateCurrentYr == 'Y' <==> 24 < p && changed)
  {
    var u := CalculatePhpUpdate(row, period, false, today);
    var orig, p, b := u.php36Original, u.snapshotPos.value, u.statusByte.value;
    SnapshotEditReplacesOne(orig, p, b);
    SnapshotYearChanged(orig, p, b, 0);
    SnapshotYearChanged(orig, p, b, 12);
    SnapshotYearChanged(orig, p, b, 24);
    YearFlags(row.history, u.php36Updated);
  }

  /**
   * Without a late reversal, a row whose snapshot is outside the PHP period
   * or whose status has no byte keeps its profile: all three flags are `N`.
   */
  lemma UntouchedFlags(row: SorRow, period: Period, today: Date)
    requires RowDefined(row, period, false, today) && FullHistory(row)
    requires var u := CalculatePhpUpdate(row, period, false, today);
             u.snapshotPos.None? || row.accountStatus !in StatusCodes
    ensures var u := CalculatePhpUpdate(row, period, false, today);
            && u.php36Updated == u.php36Original
            && u.newYears == row.history
            && u.updatePrev2Yr == 'N' && u.updatePrev1Yr == 'N' && u.updateCurrentYr == 'N'
  {
    SplitJoinYears(row.history);
  }
}
