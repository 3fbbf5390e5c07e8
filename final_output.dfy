/**
 * The indicator, label and update-string columns of the final report
 * (calc_new.py, generate_final_output).
 */
module FinalOutput {
  import opened Optional
  import opened SqlText
  import opened PhpCalendar

  // ---------------------------------------------------------------------------
  // Account numbers
  // ---------------------------------------------------------------------------

  function DigitChar(d: int): char
    requires 0 <= d < 10
  {
    ('0' as int + d) as char
  }

  predicate AllDigits(s: string)
  {
    forall i :: 0 <= i < |s| ==> '0' <= s[i] <= '9'
  }

  /** CAST(n AS VARCHAR) for a non-negative integer: its decimal digits. */
  function DecimalString(n: nat): (s: string)
    ensures 1 <= |s| && AllDigits(s)
  {
    if n < 10 then [DigitChar(n)] else DecimalString(n / 10) + [DigitChar(n % 10)]
  }

  /** The number a string of decimal digits denotes. */
  function DigitsValue(s: string): nat
    requires AllDigits(s)
  {
    if s == [] then 0 else DigitsValue(s[..|s| - 1]) * 10 + (s[|s| - 1] as int - '0' as int)
  }

  function Pow10(k: nat): nat
  {
    if k == 0 then 1 else 10 * Pow10(k - 1)
  }

  /** The decimal string denotes the number and has at most `k` digits when the number is below 10^k. */
  lemma {:induction false} DecimalStringValue(n: nat, k: nat)
    requires 1 <= k && n < Pow10(k)
    ensures DigitsValue(DecimalString(n)) == n
    ensures |DecimalString(n)| <= k
  {
    var s := DecimalString(n);
    if n < 10 {
      assert s[..0] == [];
    } else {
      assert n / 10 < Pow10(k - 1);
      assert k - 1 >= 1;
      assert s[..|s| - 1] == DecimalString(n / 10);
      DecimalStringValue(n / 10, k - 1);
    }
  }

  function Zeros(k: nat): (z: string)
    ensures |z| == k && AllDigits(z)
    ensures forall i :: 0 <= i < k ==> z[i] == '0'
  {
    if k == 0 then [] else ['0'] + Zeros(k - 1)
  }

  /** A leading zero does not change the value of a digit string. */
  lemma {:induction false} LeadingZeroValue(s: string)
    requires AllDigits(s)
    ensures AllDigits(['0'] + s) && DigitsValue(['0'] + s) == DigitsValue(s)
  {
    var t := ['0'] + s;
    if s == [] {
      assert t[..0] == [];
    } else {
      assert t[..|t| - 1] == ['0'] + s[..|s| - 1];
      LeadingZeroValue(s[..|s| - 1]);
    }
  }

  /** Leading zeros do not change the value of a digit string. */
  lemma {:induction false} LeadingZerosValue(k: nat, s: string)
    requires AllDigits(s)
    ensures AllDigits(Zeros(k) + s) && DigitsValue(Zeros(k) + s) == DigitsValue(s)
  {
    if k == 0 {
      assert Zeros(k) + s == s;
    } else {
      LeadingZerosValue(k - 1, s);
      assert Zeros(k) + s == ['0'] + (Zeros(k - 1) + s);
      LeadingZeroValue(Zeros(k - 1) + s);
    }
  }

  /** LPAD(s, count, '0'): zeros on the left up to `count` characters; longer strings are cut to `count`. */
  function LeftPadZeros(s: string, count: nat): (r: string)
    ensures |r| == count
    ensures |s| >= count ==> r == s[..count]
    ensures |s| < count ==> r[count - |s|..] == s
    ensures |s| < count ==> forall i :: 0 <= i < count - |s| ==> r[i] == '0'
  {
    if |s| >= count then s[..count] else Zeros(count - |s|) + s
  }

  /** `loan_number_padded` (calc_new.py:107). */
  function LoanNumberPadded(lnNo: nat): string
  {
    LeftPadZeros(DecimalString(lnNo), 10)
  }

  /** A loan number below 10^10 is recovered from its ten padded digits. */
  lemma LoanNumberPaddedValue(lnNo: nat)
    requires lnNo < Pow10(10)
    ensures var s := LoanNumberPadded(lnNo);
            |s| == 10 && AllDigits(s) && DigitsValue(s) == lnNo
  {
    var d := DecimalString(lnNo);
    DecimalStringValue(lnNo, 10);
    if |d| < 10 {
      LeadingZerosValue(10 - |d|, d);
    } else {
      assert d[..10] == d;
    }
  }

  /** "CX6 Account Number" (calc_new.py:238): `51` followed by the padded loan number. */
  function Cx6AccountNumber(lnNo: nat): (r: string)
    ensures |r| == 12 && r[..2] == "51" && r[2..] == LoanNumberPadded(lnNo)
  {
    "51" + LoanNumberPadded(lnNo)
  }

  // ---------------------------------------------------------------------------
  // Indicators
  // ---------------------------------------------------------------------------

  /** "What Account Status Should be In Current File" (calc_new.py:244). */
  function StatusShouldBe(profile: Option<string>, accountStatus: string): (r: string)
    ensures profile.Some? ==> r == accountStatus
    ensures profile.None? ==> r == ""
  {
    if profile.Some? then accountStatus else ""
  }

  /**
   * "Account Status Update Indicator" (calc_new.py:247-253): `Y` when the
   * snapshot is on or after the sixth of the reversal's transaction month and
   * the CX6 status differs; empty without a CX6 profile.
   */
  function AccountStatusUpdateIndicator(profile: Option<string>, revMonthSnapshot: Date, revTransactionDt: Date,
                                        cx6AccountStatus: string, accountStatus: string): (r: string)
    ensures profile.None? <==> r == ""
    ensures r == "Y" <==>
      profile.Some? && OnOrAfter(revMonthSnapshot, SixthOfMonth(revTransactionDt)) && cx6AccountStatus != accountStatus
    ensures r in {"", "Y", "N"}
  {
    if profile.None? then ""
    else if OnOrAfter(revMonthSnapshot, SixthOfMonth(revTransactionDt)) && cx6AccountStatus != accountStatus then "Y"
    else "N"
  }

  /**
   * "CX6 PHP String Update Indicator" (calc_new.py:262-266): `Y` when the
   * profile is not what it should be; empty without a CX6 profile.
   */
  function Cx6PhpStringUpdateIndicator(profile: Option<string>, shouldBe: Option<string>): (r: string)
    ensures profile.None? <==> r == ""
    ensures r == "Y" <==> profile.Some? && shouldBe.Some? && profile.value != shouldBe.value
    ensures r in {"", "Y", "N"}
  {
    match profile
    case None => ""
    case Some(p) => if shouldBe.Some? && p != shouldBe.value then "Y" else "N"
  }

  /** "CX6_Update_Indicator" (calc_new.py:269-272). */
  function Cx6UpdateIndicator(statusIndicator: string, phpIndicator: string): (r: string)
    ensures r == "Y" <==> statusIndicator == "Y" || phpIndicator == "Y"
    ensures r in {"Y", "N"}
  {
    if statusIndicator == "Y" || phpIndicator == "Y" then "Y" else "N"
  }

  /**
   * The three CX6 indicators together: a row without a CX6 profile is never
   * flagged; a row with one is flagged iff its status must change or its
   * profile is not what it should be.
   */
  lemma Cx6IndicatorsAgree(profile: Option<string>, shouldBe: Option<string>, revMonthSnapshot: Date,
                           revTransactionDt: Date, cx6AccountStatus: string, accountStatus: string)
    ensures var s := AccountStatusUpdateIndicator(profile, revMonthSnapshot, revTransactionDt, cx6AccountStatus, accountStatus);
            var p := Cx6PhpStringUpdateIndicator(profile, shouldBe);
            var r := Cx6UpdateIndicator(s, p);
            && (profile.None? ==> s == "" && p == "" && r == "N")
            && (profile.Some? ==> (r == "Y" <==>
                  (OnOrAfter(revMonthSnapshot, SixthOfMonth(revTransactionDt)) && cx6AccountStatus != accountStatus)
                  || (shouldBe.Some? && profile.value != shouldBe.value)))
  {
  }

  /** The 1899 placeholder year stands for "no date". */
  predicate RealDate(d: Option<Date>)
  {
    d.Some? && d.value.year != 1899
  }

  /** "DOFD Update Indicator" (calc_new.py:285-290). */
  function DofdUpdateIndicator(sorDofd: Option<Date>, accountStatus: string, revAftr30Days: bool): (r: char)
    ensures r == 'Y' <==> RealDate(sorDofd) && (accountStatus == "11" || revAftr30Days)
    ensures r == 'Y' || r == 'N'
  {
    if RealDate(sorDofd) && (accountStatus == "11" || revAftr30Days) then 'Y' else 'N'
  }

  // ---------------------------------------------------------------------------
  // Update strings
  // ---------------------------------------------------------------------------

  /** CONCAT(loan, '////', old, '/', new). */
  function UpdateLine(loanNumberPadded: string, oldValue: string, newValue: string): string
  {
    loanNumberPadded + "////" + oldValue + "/" + newValue
  }

  /**
   * "Current Year Update" and "Previous 1 Year Update" (calc_new.py:293-303):
   * the update line when that year was flagged, NULL otherwise.
   */
  function YearUpdate(flag: char, loanNumberPadded: string, oldYear: string, newYear: string): (r: Option<string>)
    ensures r.Some? <==> flag == 'Y'
    ensures r.Some? ==> r.value == UpdateLine(loanNumberPadded, oldYear, newYear)
  {
    if flag == 'Y' then Some(UpdateLine(loanNumberPadded, oldYear, newYear)) else None
  }

  /** An update line of a 10-digit loan number and 12-character years is read back field by field. */
  lemma UpdateLineFields(loanNumberPadded: string, oldYear: string, newYear: string)
    requires |loanNumberPadded| == 10 && |oldYear| == 12
    ensures var l := UpdateLine(loanNumberPadded, oldYear, newYear);
            && |l| == 27 + |newYear|
            && l[..10] == loanNumberPadded && l[10..14] == "////"
            && l[14..26] == oldYear && l[26] == '/' && l[27..] == newYear
  {
    var l := UpdateLine(loanNumberPadded, oldYear, newYear);
    assert l == loanNumberPadded + "////" + oldYear + "/" + newYear;
  }

  /**
   * "DOFD Update" (calc_new.py:305-308): for status `11` with a real
   * delinquency date, the update line with the date (formatted `%m%d%y`
   * outside this model) and `0`.
   */
  function DofdUpdate(sorDofd: Option<Date>, accountStatus: string, loanNumberPadded: string,
                      formattedDofd: string): (r: Option<string>)
    ensures r.Some? <==> RealDate(sorDofd) && accountStatus == "11"
    ensures r.Some? ==> r.value == UpdateLine(loanNumberPadded, formattedDofd, "0")
  {
    if RealDate(sorDofd) && accountStatus == "11"
    then Some(UpdateLine(loanNumberPadded, formattedDofd, "0"))
    else None
  }

  /** Every row with a DOFD update line is also flagged by the DOFD indicator. */
  lemma DofdUpdateIsIndicated(sorDofd: Option<Date>, accountStatus: string, revAftr30Days: bool,
                              loanNumberPadded: string, formattedDofd: string)
    requires DofdUpdate(sorDofd, accountStatus, loanNumberPadded, formattedDofd).Some?
    ensures DofdUpdateIndicator(sorDofd, accountStatus, revAftr30Days) == 'Y'
  {
  }

  // ---------------------------------------------------------------------------
  // Manual review
  // ---------------------------------------------------------------------------

  datatype ReviewLabel = Deferral | DueDate | SorPhp | DateClosed | NoReview | Multi

  /** The text of a label in the report. */
  function LabelText(l: ReviewLabel): (t: string)
    ensures l == NoReview <==> t == "N"
    ensures l != NoReview ==> |t| > 4 && t[..4] == "Y - "
  {
    match l
    case Deferral => "Y - Deferral"
    case DueDate => "Y - Due Date"
    case SorPhp => "Y - SOR PHP"
    case DateClosed => "Y - Date Closed"
    case NoReview => "N"
    case Multi => "Y - Multi"
  }

  /** `date_closed IS NULL OR date_closed >= DATE_TRUNC('month', rev_transaction_dt)`. */
  predicate OpenAtReversal(dateClosed: Option<Date>, revTransactionDt: Date)
  {
    dateClosed.None? || OnOrAfter(dateClosed.value, FirstOfMonth(revTransactionDt))
  }

  /** The inputs of the manual-review decision table. */
  datatype ReviewInput = ReviewInput(
    hasDfTran: string,
    hasDueDateChange: string,
    currentYr: Option<string>,
    dateClosed: Option<Date>,
    revTransactionDt: Date)

  /** The conditions of the five WHEN rows (calc_new.py:312-330), in order. */
  predicate DeferralRow(x: ReviewInput)
  {
    x.hasDfTran == "Yes" && x.hasDueDateChange == "No" && x.currentYr.Some? && OpenAtReversal(x.dateClosed, x.revTransactionDt)
  }

  predicate DueDateRow(x: ReviewInput)
  {
    x.hasDfTran == "No" && x.hasDueDateChange == "Yes" && x.currentYr.Some? && OpenAtReversal(x.dateClosed, x.revTransactionDt)
  }

  predicate SorPhpRow(x: ReviewInput)
  {
    x.hasDfTran == "No" && x.hasDueDateChange == "No" && x.currentYr.None? && OpenAtReversal(x.dateClosed, x.revTransactionDt)
  }

  predicate DateClosedRow(x: ReviewInput)
  {
    x.hasDfTran == "No" && x.hasDueDateChange == "No" && x.currentYr.Some?
    && x.dateClosed.Some? && !OnOrAfter(x.dateClosed.value, FirstOfMonth(x.revTransactionDt))
  }

  predicate NoReviewRow(x: ReviewInput)
  {
    x.hasDfTran == "No" && x.hasDueDateChange == "No" && x.currentYr.Some? && OpenAtReversal(x.dateClosed, x.revTransactionDt)
  }

  /** "Requires_Manual_Review" (calc_new.py:311-333): the first WHEN row that holds, else `Y - Multi`. */
  function RequiresManualReview(x: ReviewInput): ReviewLabel
  {
    if DeferralRow(x) then Deferral
    else if DueDateRow(x) then DueDate
    else if SorPhpRow(x) then SorPhp
    else if DateClosedRow(x) then DateClosed
    else if NoReviewRow(x) then NoReview
    else Multi
  }

  /** How many of the five WHEN rows hold. */
  function RowsHolding(x: ReviewInput): nat
  {
    (if DeferralRow(x) then 1 else 0) + (if DueDateRow(x) then 1 else 0) + (if SorPhpRow(x) then 1 else 0)
    + (if DateClosedRow(x) then 1 else 0) + (if NoReviewRow(x) then 1 else 0)
  }

  /**
   * The WHEN rows never overlap, so their order does not matter: each label is
   * chosen exactly when its own row holds, and `Y - Multi` exactly when none does.
   */
  lemma ManualReviewRowsDisjoint(x: ReviewInput)
    ensures RowsHolding(x) <= 1
    ensures var l := RequiresManualReview(x);
            && (l == Deferral <==> DeferralRow(x))
            && (l == DueDate <==> DueDateRow(x))
            && (l == SorPhp <==> SorPhpRow(x))
            && (l == DateClosed <==> DateClosedRow(x))
            && (l == NoReview <==> NoReviewRow(x))
            && (l == Multi <==> RowsHolding(x) == 0)
  {
  }

  /**
   * A row needs no manual review (`N`) exactly when it has no deferral, no
   * due-date change, a current-year string, and was not closed before the
   * month of the reversal; every other row gets one `Y - ...` label.
   */
  lemma ManualReviewNoOnlyWhenClean(x: ReviewInput)
    ensures var t := LabelText(RequiresManualReview(x));
            && (t == "N" <==>
                  x.hasDfTran == "No" && x.hasDueDateChange == "No" && x.currentYr.Some?
                  && OpenAtReversal(x.dateClosed, x.revTransactionDt))
            && (t != "N" ==> t[..4] == "Y - ")
  {
  }
}
