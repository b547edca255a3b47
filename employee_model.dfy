/** The employee record and its derived experience values (models/Employee.js).

    A duration is a (years, months, days) triple. The current experience is
    cut out of a whole-day count with fixed 365-day years and 30-day months;
    the total experience adds the stored previous experience to it and
    carries days into months (at 30) and then months into years (at 12). */
module EmployeeModel {
  import opened Wrappers

  datatype Duration = Duration(years: int, months: int, days: int)

  const Zero := Duration(0, 0, 0)

  /** An employee document as the route handlers read and write it. Dates are
      kept as the text the client sent; parsing them is left to the date library. */
  datatype Employee = Employee(
    employeeId: string,
    email: string,
    password: string,
    fullName: string,
    designation: string,
    ugQualification: string,
    pgQualification: string,
    phdQualification: string,
    dateOfBirth: string,
    dateOfJoining: string,
    previousExperience: Duration,
    profilePhoto: string,
    createdBy: string)

  // ----- JavaScript integer operators on a positive divisor -----

  /** `Math.floor(a / b)`: for a positive divisor Dafny's `/` already rounds down. */
  function FloorDiv(a: int, b: int): (q: int)
    requires b > 0
    ensures q * b <= a < q * b + b
  {
    a / b
  }

  /** JavaScript's `%`: the remainder has the sign of the dividend. */
  function JsRem(a: int, b: int): (r: int)
    requires b > 0
    ensures a >= 0 ==> 0 <= r < b
    ensures a < 0 ==> -b < r <= 0
    ensures a == (if a >= 0 then a / b else -((-a) / b)) * b + r
  {
    if a >= 0 then a % b else -((-a) % b)
  }

  // ----- previousExperience schema -----

  /** The bounds the schema puts on a stored previous experience. */
  predicate ValidPrevious(p: Duration)
  {
    p.years >= 0 && 0 <= p.months <= 11 && 0 <= p.days <= 30
  }

  /** A previous experience as a client supplies it: each field may be missing. */
  datatype ExperienceInput = ExperienceInput(years: Option<int>, months: Option<int>, days: Option<int>)

  /** What the schema makes of a supplied previous experience: a missing
      field takes its default 0, and a value outside the bounds fails
      validation (None). */
  function StoredPrevious(x: ExperienceInput): (r: Option<Duration>)
    ensures r.Some? ==> ValidPrevious(r.value)
    ensures r.Some? ==> r.value.years == x.years.GetOr(0) && r.value.months == x.months.GetOr(0)
                        && r.value.days == x.days.GetOr(0)
    ensures r.None? <==> !ValidPrevious(Duration(x.years.GetOr(0), x.months.GetOr(0), x.days.GetOr(0)))
  {
    var p := Duration(x.years.GetOr(0), x.months.GetOr(0), x.days.GetOr(0));
    if ValidPrevious(p) then Some(p) else None
  }

  /** A previous experience with no fields supplied is stored as the default (0, 0, 0). */
  lemma StoredPreviousDefault()
    ensures StoredPrevious(ExperienceInput(None, None, None)) == Some(Zero)
  {
  }

  // ----- currentExperience -----

  /** The `currentExperience` virtual for a joining date `dayCount` whole days
      before now. For a joining date in the past the triple adds back up to
      the day count, with days in 0..29 and months in 0..12. */
  function CurrentExperience(dayCount: int): (d: Duration)
    ensures dayCount >= 0 ==> 365 * d.years + 30 * d.months + d.days == dayCount
    ensures dayCount >= 0 ==> d.years >= 0 && 0 <= d.months <= 12 && 0 <= d.days <= 29
  {
    var years := FloorDiv(dayCount, 365);
    var remainingDaysAfterYears := JsRem(dayCount, 365);
    var months := FloorDiv(remainingDaysAfterYears, 30);
    var days := JsRem(remainingDaysAfterYears, 30);
    Duration(years, months, days)
  }

  /** For a past joining date the JavaScript operators agree with Euclidean division. */
  lemma CurrentExperienceEuclidean(dayCount: int)
    requires dayCount >= 0
    ensures CurrentExperience(dayCount)
            == Duration(dayCount / 365, (dayCount % 365) / 30, (dayCount % 365) % 30)
  {
  }

  /** The months component is 12, and so not normalised, exactly when the
      day count leaves a remainder of 360 to 364 after whole years. */
  lemma CurrentMonthsTwelve(dayCount: int)
    requires dayCount >= 0
    ensures CurrentExperience(dayCount).months == 12 <==> 360 <= dayCount % 365
  {
  }

  /** Every triple with at most 364 days below a year is the decomposition of
      its own day count: decomposition and recomposition are inverse. */
  lemma CurrentExperienceRoundTrip(years: int, months: int, days: int)
    requires years >= 0 && 0 <= months && 0 <= days <= 29 && 30 * months + days <= 364
    ensures CurrentExperience(365 * years + 30 * months + days) == Duration(years, months, days)
  {
    var t := 365 * years + 30 * months + days;
    var r := 30 * months + days;
    assert t / 365 == years && t % 365 == r;
    assert r / 30 == months && r % 30 == days;
  }

  /** A joining date in the future (negative day count) yields non-positive
      components, with years negative. */
  lemma CurrentExperienceFutureJoining(dayCount: int)
    requires dayCount < 0
    ensures var d := CurrentExperience(dayCount);
            d.years < 0 && -13 <= d.months <= 0 && -29 <= d.days <= 0
  {
  }

  /** One day in the future: floor division and truncating remainder mix, so
      the triple (-1, -1, -1) no longer adds back up to the day count. */
  lemma CurrentExperienceOneDayAhead()
    ensures CurrentExperience(-1) == Duration(-1, -1, -1)
    ensures 365 * (-1) + 30 * (-1) + (-1) != -1
  {
  }

  /** The triple adds back up to the day count exactly when the joining date
      is in the past or a whole number of 365-day years ahead; otherwise the
      floor division of the years overshoots and the sum falls short. */
  lemma CurrentExperienceAddsUp(dayCount: int)
    ensures var d := CurrentExperience(dayCount);
            365 * d.years + 30 * d.months + d.days == dayCount <==> dayCount >= 0 || dayCount % 365 == 0
  {
    var d := CurrentExperience(dayCount);
    if dayCount < 0 {
      var q, s := (-dayCount) / 365, (-dayCount) % 365;
      assert -dayCount == 365 * q + s;
      if s == 0 {
        assert d.years == -q;
        assert d.months == 0 && d.days == 0;
      } else {
        assert d.years == -q - 1 by {
          assert (-q - 1) * 365 <= dayCount < (-q - 1) * 365 + 365;
        }
        assert JsRem(dayCount, 365) == -s;
        assert 30 * d.months <= -s && d.days <= 0;
        assert dayCount % 365 != 0 by {
          assert dayCount == (-q - 1) * 365 + (365 - s);
        }
      }
    }
  }

  // ----- totalExperience -----

  /** A duration in units of days with 30-day months and 12-month years. */
  function Weight(d: Duration): int
  {
    (12 * d.years + d.months) * 30 + d.days
  }

  predicate NonNegative(d: Duration)
  {
    d.years >= 0 && d.months >= 0 && d.days >= 0
  }

  /** The normal form: days below a month, months below a year. */
  predicate IsNormal(d: Duration)
  {
    d.years >= 0 && 0 <= d.months <= 11 && 0 <= d.days <= 29
  }

  /** The normal duration of `w` days, as a reference independent of the carry steps. */
  function Normalized(w: nat): (d: Duration)
    ensures IsNormal(d) && Weight(d) == w
  {
    var years, rest := w / 360, w % 360;
    assert w == 360 * years + rest && 0 <= rest < 360;
    assert w % 30 == rest % 30 by {
      assert w == 30 * (12 * years + rest / 30) + rest % 30;
    }
    Duration(years, rest / 30, w % 30)
  }

  /** A normal duration is determined by its weight. */
  lemma {:induction false} NormalFormUnique(d: Duration)
    requires IsNormal(d)
    ensures Weight(d) >= 0 && d == Normalized(Weight(d))
  {
    var w := Weight(d);
    var r := 30 * d.months + d.days;
    assert w == 360 * d.years + r && 0 <= r < 360;
    DivModUnique(w, 360, d.years, r);
    DivModUnique(r, 30, d.months, d.days);
    DivModUnique(w, 30, 12 * d.years + d.months, d.days);
  }

  /** Quotient and remainder are the only ones with the remainder in range. */
  lemma DivModUnique(x: int, b: int, q: int, r: int)
    requires b > 0 && 0 <= r < b && x == q * b + r
    ensures x / b == q && x % b == r
  {
    var q', r' := x / b, x % b;
    assert x == q' * b + r' && 0 <= r' < b;
    var k := q - q';
    assert k * b == r' - r by {
      assert q * b - q' * b == (q - q') * b;
    }
    if k >= 1 {
      assert k * b == (k - 1) * b + b;
      MulNonNegative(k - 1, b);
    } else if k <= -1 {
      assert -k * b == (-k - 1) * b + b;
      MulNonNegative(-k - 1, b);
    }
  }

  lemma MulNonNegative(a: int, b: int)
    requires a >= 0 && b >= 0
    ensures a * b >= 0
  {
  }

  /** The `totalExperience` virtual of employee `e` whose joining date lies
      `dayCount` days before now. */
  method TotalExperience(e: Employee, dayCount: int) returns (total: Duration)
    // the carries lose nothing and only ever add to the years
    ensures Weight(total) == Weight(CurrentExperience(dayCount)) + Weight(e.previousExperience)
    ensures total.years >= e.previousExperience.years + CurrentExperience(dayCount).years
    // with non-negative parts, the result is normal in one pass: the normal
    // form of the summed weight
    ensures dayCount >= 0 && NonNegative(e.previousExperience) ==> IsNormal(total)
    ensures dayCount >= 0 && NonNegative(e.previousExperience) ==>
              Weight(CurrentExperience(dayCount)) + Weight(e.previousExperience) >= 0 &&
              total == Normalized(Weight(CurrentExperience(dayCount)) + Weight(e.previousExperience))
    // below both carry thresholds the component sums come out as they are
    ensures e.previousExperience.days + CurrentExperience(dayCount).days < 30 &&
            e.previousExperience.months + CurrentExperience(dayCount).months < 12 ==>
              total == Duration(e.previousExperience.years + CurrentExperience(dayCount).years,
                                e.previousExperience.months + CurrentExperience(dayCount).months,
                                e.previousExperience.days + CurrentExperience(dayCount).days)
    // with no previous experience: a normal current experience is the total,
    // and a 12-month one becomes one more year
    ensures e.previousExperience == Zero && CurrentExperience(dayCount).months <= 11 && dayCount >= 0 ==>
              total == CurrentExperience(dayCount)
    ensures e.previousExperience == Zero && CurrentExperience(dayCount).months == 12 && dayCount >= 0 ==>
              total == Duration(CurrentExperience(dayCount).years + 1, 0, CurrentExperience(dayCount).days)
  {
    var current := CurrentExperience(dayCount);
    var previous := e.previousExperience;

    var totalDays := previous.days + current.days;
    var totalMonths := previous.months + current.months;
    var totalYears := previous.years + current.years;

    if totalDays >= 30 {
      totalMonths := totalMonths + FloorDiv(totalDays, 30);
      totalDays := totalDays % 30;
    }

    if totalMonths >= 12 {
      totalYears := totalYears + FloorDiv(totalMonths, 12);
      totalMonths := totalMonths % 12;
    }

    total := Duration(totalYears, totalMonths, totalDays);
    if dayCount >= 0 && NonNegative(previous) {
      NormalFormUnique(total);
    }
  }
}
