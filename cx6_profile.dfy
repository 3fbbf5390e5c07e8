/**
 * The CX6 payment-history profile update (calc_new.py, calculate_cx6_updates,
 * and the coalesced "What CX6 PHP string should be" column of
 * generate_final_output). The CX6 profile is newest month first.
 */
module Cx6Profile {
  import opened Optional
  import opened SqlText
  import opened PhpCalendar

  /**
   * `months_between` (calc_new.py:204): months from the start of the loan's
   * PHP period to the file date.
   */
  function MonthsBetween(startMonthPhp: int, fileDate: Date): (r: int)
    ensures r <= 1 <==> MonthIndex(fileDate) <= startMonthPhp + 1
    ensures startMonthPhp + r == MonthIndex(fileDate)
  {
    MonthsDiff(startMonthPhp, MonthIndex(fileDate))
  }

  /**
   * `cx6_php_updated` (calc_new.py:207-216): the first `monthsBetween - 1`
   * characters have every delinquency code turned into `D`.
   */
  function Cx6PhpUpdated(profile: Option<string>, monthsBetween: int): (r: Option<string>)
    ensures r.None? <==> profile.None?
    ensures profile.Some? && monthsBetween <= 1 ==> r == profile
  {
    match profile
    case None => None
    case Some(p) =>
      if monthsBetween <= 1 then Some(p)
      else Some(ReplaceWithD(Substring(p, 1, monthsBetween - 1), Cx6Delinquent) + SubstringFrom(p, monthsBetween))
  }

  /** The character the prefix rewrite leaves at 0-based index `i`. */
  function Cx6Mark(p: string, monthsBetween: int, i: int): char
    requires 0 <= i < |p|
  {
    if i < monthsBetween - 1 && InClass(p[i], Cx6Delinquent) then 'D' else p[i]
  }

  /**
   * The prefix rewrite keeps the length; in the first `monthsBetween - 1`
   * characters `1`-`6`, `J`, `K`, `L` and `0` become `D`, every other character
   * (`B` among them) is kept, and the rest of the profile is unchanged.
   */
  lemma Cx6PrefixRewrite(p: string, monthsBetween: int)
    ensures var r := Cx6PhpUpdated(Some(p), monthsBetween).value;
            |r| == |p| && forall i :: 0 <= i < |p| ==> r[i] == Cx6Mark(p, monthsBetween, i)
  {
    var r := Cx6PhpUpdated(Some(p), monthsBetween).value;
    if monthsBetween > 1 {
      var m := ReplaceWithD(Substring(p, 1, monthsBetween - 1), Cx6Delinquent);
      var c := SubstringFrom(p, monthsBetween);
      assert r == m + c;
      forall i | 0 <= i < |p| ensures r[i] == Cx6Mark(p, monthsBetween, i) {
        if i < |m| { assert r[i] == m[i]; } else { assert r[i] == c[i - |m|]; }
      }
    }
  }

  /** LEFT(p, 1) <> 'B': the profile does not begin with a bankruptcy month. */
  predicate NotBankruptFirst(p: string)
  {
    Substring(p, 1, 1) != "B"
  }

  /**
   * `cx6_accurate_php_updated` (calc_new.py:219-226): without a late reversal,
   * for a snapshot on or before the sixth of the current month, the first
   * month of a profile not starting with `B` becomes the status byte
   * (NULL when there is no byte). `today` stands for CURRENT_DATE.
   */
  function Cx6AccuratePhpUpdated(hasLateReversal: bool, profile: Option<string>, revMonthSnapshot: Date,
                                 today: Date, statusByte: Option<char>): (r: Option<string>)
    ensures r.Some? <==>
      && !hasLateReversal && profile.Some? && statusByte.Some?
      && OnOrAfter(SixthOfMonth(today), revMonthSnapshot)
      && (profile.value == [] || profile.value[0] != 'B')
    ensures r.Some? ==>
      && |r.value| == Max(1, |profile.value|)
      && r.value[0] == statusByte.value
      && r.value[1..] == SubstringFrom(profile.value, 2)
      && (profile.value != [] ==> r.value == profile.value[0 := statusByte.value])
  {
    if !hasLateReversal && profile.Some? && OnOrAfter(SixthOfMonth(today), revMonthSnapshot)
       && NotBankruptFirst(profile.value)
    then
      match statusByte
      case None => None
      case Some(b) => Some([b] + SubstringFrom(profile.value, 2))
    else None
  }

  /** COALESCE(a, b). */
  function Coalesce(a: Option<string>, b: Option<string>): (r: Option<string>)
    ensures r == if a.Some? then a else b
  {
    match a
    case Some(_) => a
    case None => b
  }

  /**
   * "What CX6 PHP string should be" (calc_new.py:258): the accurate-status
   * rewrite when it applies, the prefix rewrite otherwise. `paymentDate` is
   * the loan's `start_month_php` and `fileDate` the row's file date
   * (calc_new.py:202-204).
   */
  function Cx6PhpShouldBe(hasLateReversal: bool, profile: Option<string>, revMonthSnapshot: Date, today: Date,
                          statusByte: Option<char>, paymentDate: int, fileDate: Date): (r: Option<string>)
    ensures r.None? <==> profile.None?
  {
    Coalesce(Cx6AccuratePhpUpdated(hasLateReversal, profile, revMonthSnapshot, today, statusByte),
             Cx6PhpUpdated(profile, MonthsBetween(paymentDate, fileDate)))
  }

  /**
   * For a non-empty profile, the string it should be is either the profile
   * with only its first month replaced by the status byte (when that month is
   * not `B` and the accurate-status conditions hold) or the prefix rewrite.
   */
  lemma Cx6ShouldBeCases(hasLateReversal: bool, p: string, revMonthSnapshot: Date, today: Date,
                         statusByte: Option<char>, paymentDate: int, fileDate: Date)
    requires p != []
    ensures var monthsBetween := MonthsBetween(paymentDate, fileDate);
            var r := Cx6PhpShouldBe(hasLateReversal, Some(p), revMonthSnapshot, today, statusByte,
                                    paymentDate, fileDate).value;
            var accurate := !hasLateReversal && statusByte.Some? && p[0] != 'B'
                            && OnOrAfter(SixthOfMonth(today), revMonthSnapshot);
            && |r| == |p|
            && (accurate ==> r == p[0 := statusByte.value])
            && (!accurate ==> forall i :: 0 <= i < |p| ==> r[i] == Cx6Mark(p, monthsBetween, i))
  {
    Cx6PrefixRewrite(p, MonthsBetween(paymentDate, fileDate));
  }
}
