/**
 * The `mins:ss` countdown shown while a scan runs. The extension's popup
 * counts 12 seconds per remaining results page; the two admin pages count
 * 6 seconds per profile still to enrich. Both show whole minutes, a colon
 * and the seconds padded to two digits.
 */
module TimeRemaining {
  import opened Text
  import opened JsNumbers

  /** Seconds per remaining page in the extension's popup. */
  const POPUP_SECONDS_PER_PAGE: nat := 12
  /** Seconds per profile still to enrich on the admin pages. */
  const ADMIN_SECONDS_PER_PROFILE: nat := 6

  datatype Clock = Clock(mins: nat, secs: nat)

  /**
   * `Math.floor(seconds / 60)` and `seconds % 60` for `seconds` the
   * remaining units, clamped at zero, times the seconds per unit.
   */
  function Countdown(remaining: int, secondsPerUnit: nat): (c: Clock)
    ensures c.secs < 60
    ensures c.mins * 60 + c.secs == (if remaining > 0 then remaining else 0) * secondsPerUnit
  {
    var seconds: nat := (if remaining > 0 then remaining else 0) * secondsPerUnit;
    Clock(seconds / 60, seconds % 60)
  }

  /** `${mins}:${secs.toString().padStart(2, '0')}`. */
  function Display(c: Clock): string {
    NatToString(c.mins) + ":" + PadStart(NatToString(c.secs), 2, '0')
  }

  /** A number below 100 prints in at most two digits. */
  lemma PrintedBelowHundred(n: nat)
    requires n < 100
    ensures |NatToString(n)| == if n < 10 then 1 else 2
  {
    if n >= 10 {
      assert NatToString(n) == NatToString(n / 10) + [DigitChar(n % 10)];
    }
  }

  /**
   * The displayed text reads back: the minutes in full, a colon, and
   * exactly two digits that denote the seconds.
   */
  lemma DisplayReadsBack(c: Clock)
    requires c.secs < 60
    ensures var ss := Display(c)[|NatToString(c.mins)| + 1..];
      Display(c) == NatToString(c.mins) + ":" + ss &&
      |ss| == 2 && AllDigits(ss) && Value(ss, 10) == c.secs &&
      Value(NatToString(c.mins), 10) == c.mins
  {
    var digits := NatToString(c.secs);
    PrintedBelowHundred(c.secs);
    var ss := PadStart(digits, 2, '0');
    assert Display(c)[|NatToString(c.mins)| + 1..] == ss;
    ValueOfNatToString(c.secs);
    ValueOfNatToString(c.mins);
    if |digits| < 2 {
      assert ss == Repeat('0', 1) + digits;
      ValueLeadingZeros(1, digits);
    }
  }

  /** Two countdowns that display alike are the same countdown. */
  lemma DisplayInjective(c: Clock, d: Clock)
    requires c.secs < 60 && d.secs < 60
    requires Display(c) == Display(d)
    ensures c == d
  {
    DisplayReadsBack(c);
    DisplayReadsBack(d);
    var mc, md := NatToString(c.mins), NatToString(d.mins);
    assert |mc| == |md|;
    assert mc == Display(c)[..|mc|] == Display(d)[..|md|] == md;
    NatToStringInjective(c.mins, d.mins);
  }

  /** Nothing left to do shows `0:00`. */
  lemma NothingLeft(remaining: int, secondsPerUnit: nat)
    requires remaining <= 0
    ensures Display(Countdown(remaining, secondsPerUnit)) == "0:00"
  {
    assert NatToString(0) == "0";
    assert PadStart("0", 2, '0') == Repeat('0', 1) + "0";
  }

  /** A countdown shows `0:00` exactly when nothing is left. */
  lemma ShowsZeroIff(remaining: int, secondsPerUnit: nat)
    requires secondsPerUnit > 0
    ensures Display(Countdown(remaining, secondsPerUnit)) == "0:00" <==> remaining <= 0
  {
    var c, zero := Countdown(remaining, secondsPerUnit), Countdown(0, secondsPerUnit);
    NothingLeft(0, secondsPerUnit);
    if remaining <= 0 {
      NothingLeft(remaining, secondsPerUnit);
    } else if Display(c) == "0:00" {
      DisplayInjective(c, zero);
    }
  }

  /** The text of a countdown from `remaining` units at `secondsPerUnit` each. */
  function Remaining(remaining: int, secondsPerUnit: nat): (text: string)
    requires secondsPerUnit > 0
    ensures text == "0:00" <==> remaining <= 0
  {
    ShowsZeroIff(remaining, secondsPerUnit);
    Display(Countdown(remaining, secondsPerUnit))
  }

  /** The popup's estimate for `page` of `totalEstimated`: `Math.max(totalEstimated - page, 0)` pages at 12 seconds. */
  function PopupEstimate(page: int, totalEstimated: int): (text: string)
    ensures text == "0:00" <==> page >= totalEstimated
  {
    Remaining(totalEstimated - page, POPUP_SECONDS_PER_PAGE)
  }

  /**
   * The admin pages' estimate: `total - processed` profiles at 6 seconds
   * when some remain, and the literal `0:00` otherwise.
   */
  function AdminEstimate(total: int, processed: int): (text: string)
    ensures text == "0:00" <==> processed >= total
  {
    var remaining := total - processed;
    if remaining > 0 then Remaining(remaining, ADMIN_SECONDS_PER_PROFILE) else "0:00"
  }

  /**
   * The admin pages' explicit `0:00` branch is what the clamped countdown
   * shows anyway, so both places share one formatter.
   */
  lemma AdminEstimateIsCountdown(total: int, processed: int)
    ensures AdminEstimate(total, processed) == Display(Countdown(total - processed, ADMIN_SECONDS_PER_PROFILE))
  {
    if total - processed <= 0 {
      NothingLeft(total - processed, ADMIN_SECONDS_PER_PROFILE);
    }
  }
}
