/** The dashboard's rendering of an experience triple (`formatExperience` in
    public/js/dashboard.js): the positive components in the order years,
    months, days, each as "<count> <unit>" with a plural "s" unless the count
    is 1, joined by ", "; "N/A" when nothing is shown. */
module DashboardFormat {
  import opened Wrappers
  import opened Numerals
  import opened EmployeeModel

  const NotApplicable := "N/A"

  /** `parts.join(sep)`. */
  function Join(parts: seq<string>, sep: string): (s: string)
    ensures parts != [] ==> |s| >= |parts[0]| && s[..|parts[0]|] == parts[0]
  {
    if |parts| == 0 then "" else if |parts| == 1 then parts[0] else parts[0] + sep + Join(parts[1..], sep)
  }

  /** One component as "<count> <unit>", plural unless the count is 1. */
  function Phrase(count: nat, unit: string): (p: string)
    ensures |p| > |NatToString(count)| && p[..|NatToString(count)|] == NatToString(count)
    ensures p[|NatToString(count)|] == ' '
  {
    NatToString(count) + " " + unit + (if count != 1 then "s" else "")
  }

  /** The three components of a duration, largest unit first. */
  function Components(d: Duration): seq<(int, string)>
  {
    [(d.years, "year"), (d.months, "month"), (d.days, "day")]
  }

  /** The phrases of the components whose count is positive, in their order. */
  function Shown(cs: seq<(int, string)>): (r: seq<string>)
    ensures |r| <= |cs|
    ensures r == [] <==> forall i :: 0 <= i < |cs| ==> cs[i].0 <= 0
  {
    if cs == [] then []
    else (if cs[0].0 > 0 then [Phrase(cs[0].0, cs[0].1)] else []) + Shown(cs[1..])
  }

  /** What the dashboard shows for a duration that may be missing. */
  function Formatted(exp: Option<Duration>): (s: string)
    ensures s == NotApplicable || (|s| > 0 && IsDecimalDigit(s[0]))
  {
    match exp
    case None => NotApplicable
    case Some(d) =>
      var parts := Shown(Components(d));
      ShownStartsWithDigit(Components(d));
      JoinOfPhrasesStartsWithDigit(parts);
      if parts == [] then NotApplicable else Join(parts, ", ")
  }

  /** `formatExperience(exp)`, with the early "N/A" return for a missing or
      all-zero duration, the conditional pushes onto `parts`, and the
      `|| 'N/A'` fallback for an empty join. */
  method FormatExperience(exp: Option<Duration>) returns (s: string)
    ensures s == Formatted(exp)
  {
    if exp.None? || (exp.value.years == 0 && exp.value.months == 0 && exp.value.days == 0) {
      return NotApplicable;
    }
    var d := exp.value;
    var parts: seq<string> := [];
    if d.years > 0 {
      parts := parts + [Phrase(d.years, "year")];
    }
    if d.months > 0 {
      parts := parts + [Phrase(d.months, "month")];
    }
    if d.days > 0 {
      parts := parts + [Phrase(d.days, "day")];
    }
    assert parts == PhraseIfPositive(d.years, "year") + PhraseIfPositive(d.months, "month")
                    + PhraseIfPositive(d.days, "day");
    ShownComponents(d);
    var joined := Join(parts, ", ");
    s := if joined == "" then NotApplicable else joined;
  }

  // ----- properties of the rendering -----

  function PhraseIfPositive(count: int, unit: string): seq<string>
  {
    if count > 0 then [Phrase(count, unit)] else []
  }

  /** The phrases of a duration: a phrase for each positive component, years first. */
  lemma ShownComponents(d: Duration)
    ensures Shown(Components(d))
            == PhraseIfPositive(d.years, "year") + PhraseIfPositive(d.months, "month")
               + PhraseIfPositive(d.days, "day")
  {
    var cs := Components(d);
    assert cs[1..][1..][1..] == [];
    assert Shown(cs[1..][1..]) == PhraseIfPositive(d.days, "day");
  }

  /** Every element of `Shown` is a phrase, so it starts with a decimal digit. */
  lemma {:induction false} ShownStartsWithDigit(cs: seq<(int, string)>)
    ensures forall i :: 0 <= i < |Shown(cs)| ==> |Shown(cs)[i]| > 0 && IsDecimalDigit(Shown(cs)[i][0])
  {
    if cs != [] {
      ShownStartsWithDigit(cs[1..]);
    }
  }

  /** A join of phrases that each start with a digit is empty only when there
      are none, and otherwise itself starts with a digit. */
  lemma JoinOfPhrasesStartsWithDigit(parts: seq<string>)
    requires forall i :: 0 <= i < |parts| ==> |parts[i]| > 0 && IsDecimalDigit(parts[i][0])
    ensures parts != [] ==> |Join(parts, ", ")| > 0 && IsDecimalDigit(Join(parts, ", ")[0])
  {
  }

  /** "N/A" appears exactly when the duration is missing or has no positive
      component, and the rendering is never empty. */
  lemma FormattedNotApplicable(exp: Option<Duration>)
    ensures Formatted(exp) == NotApplicable <==>
            exp.None? || (exp.value.years <= 0 && exp.value.months <= 0 && exp.value.days <= 0)
    ensures |Formatted(exp)| > 0
  {
    if exp.Some? {
      ShownComponents(exp.value);
      var parts := Shown(Components(exp.value));
      ShownStartsWithDigit(Components(exp.value));
      JoinOfPhrasesStartsWithDigit(parts);
      if parts != [] {
        assert Formatted(exp)[0] != NotApplicable[0];
      }
    }
  }

  /** A unit is written in the singular exactly when its count is 1. */
  lemma PhraseSingular(count: nat, unit: string)
    ensures Phrase(count, unit) == NatToString(count) + " " + unit <==> count == 1
    ensures count != 1 ==> Phrase(count, unit) == NatToString(count) + " " + unit + "s"
  {
    if count != 1 {
      assert |Phrase(count, unit)| == |NatToString(count) + " " + unit| + 1;
    }
  }

  /** With every component positive, all three appear, in the order years,
      months, days, separated by ", ". */
  lemma FormattedAllThree(d: Duration)
    requires d.years > 0 && d.months > 0 && d.days > 0
    ensures Formatted(Some(d))
            == Phrase(d.years, "year") + ", " + Phrase(d.months, "month") + ", " + Phrase(d.days, "day")
  {
    ShownComponents(d);
    var parts := [Phrase(d.years, "year"), Phrase(d.months, "month"), Phrase(d.days, "day")];
    assert Shown(Components(d)) == parts;
    JoinThree(parts[0], parts[1], parts[2], ", ");
  }

  /** Three parts are joined with the separator between each pair. */
  lemma JoinThree(a: string, b: string, c: string, sep: string)
    ensures Join([a, b, c], sep) == a + sep + b + sep + c
  {
    var parts := [a, b, c];
    assert parts[1..][1..] == [c];
    assert Join(parts[1..], sep) == b + sep + c;
    assert Join(parts, sep) == a + sep + (b + sep + c);
  }

  /** A duration with exactly one positive component shows just that component. */
  lemma FormattedSingleComponent(d: Duration)
    ensures d.years > 0 && d.months <= 0 && d.days <= 0 ==> Formatted(Some(d)) == Phrase(d.years, "year")
    ensures d.years <= 0 && d.months > 0 && d.days <= 0 ==> Formatted(Some(d)) == Phrase(d.months, "month")
    ensures d.years <= 0 && d.months <= 0 && d.days > 0 ==> Formatted(Some(d)) == Phrase(d.days, "day")
  {
    ShownComponents(d);
  }

  /** A missing component drops out together with its separator. */
  lemma FormattedSkipsZeroMonths(d: Duration)
    requires d.years > 0 && d.months <= 0 && d.days > 0
    ensures Formatted(Some(d)) == Phrase(d.years, "year") + ", " + Phrase(d.days, "day")
  {
    ShownComponents(d);
    var parts := [Phrase(d.years, "year"), Phrase(d.days, "day")];
    assert parts[1..] == [parts[1]];
    assert Join(parts[1..], ", ") == parts[1];
    assert Shown(Components(d)) == parts;
  }

  /** (0, 0, 1) renders as "1 day". */
  lemma FormattedOneDay()
    ensures Formatted(Some(Duration(0, 0, 1))) == "1 day"
  {
    FormattedSingleComponent(Duration(0, 0, 1));
    assert NatToString(1) == "1";
  }

  /** Years and months without days: two components and one separator. */
  lemma FormattedYearsMonths(d: Duration)
    requires d.years > 0 && d.months > 0 && d.days <= 0
    ensures Formatted(Some(d)) == Phrase(d.years, "year") + ", " + Phrase(d.months, "month")
  {
    ShownComponents(d);
    var parts := [Phrase(d.years, "year"), Phrase(d.months, "month")];
    assert parts[1..] == [parts[1]];
    assert Join(parts[1..], ", ") == parts[1];
    assert Shown(Components(d)) == parts;
  }

  /** Months and days under a year: two components and one separator. */
  lemma FormattedMonthsDays(d: Duration)
    requires d.years <= 0 && d.months > 0 && d.days > 0
    ensures Formatted(Some(d)) == Phrase(d.months, "month") + ", " + Phrase(d.days, "day")
  {
    ShownComponents(d);
    var parts := [Phrase(d.months, "month"), Phrase(d.days, "day")];
    assert parts[1..] == [parts[1]];
    assert Join(parts[1..], ", ") == parts[1];
    assert Shown(Components(d)) == parts;
  }

  /** 45 days of tenure, (0, 1, 15), renders as "1 month, 15 days". */
  lemma FormattedMonthAndDays()
    ensures Formatted(Some(Duration(0, 1, 15))) == "1 month, 15 days"
  {
    PhraseOneMonth();
    PhraseFifteenDays();
    FormattedMonthsDays(Duration(0, 1, 15));
    assert "1 month" + ", " + "15 days" == "1 month, 15 days";
  }

  /** (2, 1, 0) renders as "2 years, 1 month". */
  lemma FormattedYearsAndMonth()
    ensures Formatted(Some(Duration(2, 1, 0))) == "2 years, 1 month"
  {
    FormattedYearsMonths(Duration(2, 1, 0));
    PhraseTwoYears();
    PhraseOneMonth();
    assert "2 years" + ", " + "1 month" == "2 years, 1 month";
  }

  lemma PhraseOneMonth()
    ensures Phrase(1, "month") == "1 month"
  {
    assert NatToString(1) == "1";
    assert "1" + " " + "month" + "" == "1 month";
  }

  lemma PhraseTwoYears()
    ensures Phrase(2, "year") == "2 years"
  {
    assert NatToString(2) == "2";
    assert "2" + " " + "year" + "s" == "2 years";
  }

  lemma PhraseFifteenDays()
    ensures Phrase(15, "day") == "15 days"
  {
    assert NatToString(15) == "15";
    assert "15" + " " + "day" + "s" == "15 days";
  }

  /** All-zero and all-negative durations render as "N/A". */
  lemma FormattedNothingPositive()
    ensures Formatted(Some(Duration(0, 0, 0))) == "N/A"
    ensures Formatted(Some(Duration(-1, 0, -3))) == "N/A"
  {
    FormattedNotApplicable(Some(Duration(0, 0, 0)));
    FormattedNotApplicable(Some(Duration(-1, 0, -3)));
  }
}
