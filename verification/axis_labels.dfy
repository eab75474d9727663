/** The x-axis label thinning of the chart: every date gets a tick; the first date and
    every first-of-month date get a major tick with a text label, all other dates a
    minor tick without one. */
module AxisLabels {
  import opened Wrappers
  import opened Text

  /** The right-arrow glyph (U+2192) that follows the month in a first-of-month label. */
  const Arrow: char := '\U{2192}'

  predicate IsDigit(c: char)
  {
    '0' <= c <= '9'
  }

  function DigitValue(c: char): nat
    requires IsDigit(c)
  {
    c as int - '0' as int
  }

  /** A month code as the table knows it: two decimal digits spelling 1 to 12. */
  predicate IsMonthCode(month: string)
  {
    && |month| == 2
    && IsDigit(month[0]) && IsDigit(month[1])
    && 1 <= 10 * DigitValue(month[0]) + DigitValue(month[1]) <= 12
  }

  /** The fixed month table: "06" and "07" are spelled out in full, the rest abbreviated. */
  function MonthAbbrev(month: string): (r: Option<string>)
    ensures r.Some? <==> IsMonthCode(month)
    ensures r.Some? ==> 3 <= |r.value| <= 4 && Arrow !in r.value
  {
    match month
    case "01" => Some("Jan")
    case "02" => Some("Feb")
    case "03" => Some("Mar")
    case "04" => Some("Apr")
    case "05" => Some("May")
    case "06" => Some("June")
    case "07" => Some("July")
    case "08" => Some("Aug")
    case "09" => Some("Sep")
    case "10" => Some("Oct")
    case "11" => Some("Nov")
    case "12" => Some("Dec")
    case _ => MonthCodeListed(month); None
  }

  /** The twelve codes of the table are all the month codes there are. */
  lemma MonthCodeListed(month: string)
    ensures IsMonthCode(month) ==> month in {"01", "02", "03", "04", "05", "06", "07", "08", "09", "10", "11", "12"}
  {
    if IsMonthCode(month) {
      assert month == [month[0], month[1]];
      var tens, units := DigitValue(month[0]), DigitValue(month[1]);
      assert month[0] == (if tens == 0 then '0' else '1');
      assert units <= 9 && month[1] == ('0' as int + units) as char;
    }
  }

  /** What the labelling returns: one label per major tick, and the two tick lists. */
  datatype Ticks = Ticks(labels: seq<string>, major: seq<nat>, minor: seq<nat>)

  /** Why the labelling stops, with the index of the date that stopped it. */
  datatype LabelError =
    | MalformedDate(at: nat, fields: nat)    // the date does not split into three '-'-separated fields
    | UnknownMonth(at: nat, month: string)   // the month field is not a key of the month table

  /** A date that unpacks into year, month and day. */
  predicate WellFormed(date: string)
  {
    |Split(date, '-')| == 3
  }

  function MonthField(date: string): string
    requires WellFormed(date)
  {
    Split(date, '-')[1]
  }

  function DayField(date: string): string
    requires WellFormed(date)
  {
    Split(date, '-')[2]
  }

  /** Index i gets a major tick: it is the first entry, or its day field is exactly "01". */
  predicate IsMajor(dates: seq<string>, i: nat)
    requires i < |dates| && WellFormed(dates[i])
  {
    i == 0 || DayField(dates[i]) == "01"
  }

  /** The error the date at index i raises, if any: a malformed date always fails; an
      unknown month fails only where the month is looked up, that is, on a major tick. */
  function ErrorAt(dates: seq<string>, i: nat): (e: Option<LabelError>)
    requires i < |dates|
    ensures e.None? <==> WellFormed(dates[i]) && (IsMajor(dates, i) ==> IsMonthCode(MonthField(dates[i])))
    ensures e.Some? ==> e.value.at == i
    ensures e.Some? && e.value.MalformedDate? <==> !WellFormed(dates[i])
    ensures e.Some? && e.value.MalformedDate? ==> e.value.fields != 3
    ensures e.Some? && e.value.UnknownMonth? ==> !IsMonthCode(e.value.month)
  {
    if !WellFormed(dates[i]) then Some(MalformedDate(i, |Split(dates[i], '-')|))
    else if IsMajor(dates, i) && MonthAbbrev(MonthField(dates[i])).None? then
      Some(UnknownMonth(i, MonthField(dates[i])))
    else None
  }

  /** None of the first n dates raises an error. */
  predicate Clean(dates: seq<string>, n: nat)
  {
    n <= |dates| && forall i :: 0 <= i < n ==> ErrorAt(dates, i).None?
  }

  /** The label of a major tick: "DD-Mon" for the first entry, "Mon" and an arrow otherwise. */
  function LabelAt(dates: seq<string>, i: nat): (r: string)
    requires i < |dates| && ErrorAt(dates, i).None? && IsMajor(dates, i)
    ensures var day := DayField(dates[i]);
      i == 0 ==> (|day| + 4 <= |r| <= |day| + 5) && r[..|day|] == day
                 && r[|day|] == '-' && r[|r| - 1] != Arrow
    ensures i > 0 ==> 4 <= |r| <= 5 && r[|r| - 1] == Arrow && Arrow !in r[..|r| - 1]
  {
    var month := MonthAbbrev(MonthField(dates[i])).value;
    if i == 0 then DayField(dates[i]) + "-" + month else month + [Arrow]
  }

  predicate StrictlyIncreasing(s: seq<nat>)
  {
    forall k, l :: 0 <= k < l < |s| ==> s[k] < s[l]
  }

  /** t is the labelling of the first n dates: both tick lists are increasing indices
      below n, an index is major exactly when IsMajor says so and minor exactly when
      it does not, and the k-th label is the label of the k-th major tick. */
  predicate Describes(dates: seq<string>, n: nat, t: Ticks)
  {
    && Clean(dates, n)
    && StrictlyIncreasing(t.major) && StrictlyIncreasing(t.minor)
    && (forall k :: 0 <= k < |t.major| ==> t.major[k] < n)
    && (forall k :: 0 <= k < |t.minor| ==> t.minor[k] < n)
    && (forall i :: 0 <= i < n ==> ErrorAt(dates, i).None? && (i in t.major <==> IsMajor(dates, i)))
    && (forall i :: 0 <= i < n ==> ErrorAt(dates, i).None? && (i in t.minor <==> !IsMajor(dates, i)))
    && |t.labels| == |t.major|
    && (forall k :: 0 <= k < |t.major| ==> t.labels[k] == LabelAt(dates, t.major[k]))
  }

  /** A major tick at index i extends the labelling of the first i dates by its label. */
  lemma DescribesMajorStep(dates: seq<string>, i: nat, t: Ticks)
    requires Describes(dates, i, t)
    requires i < |dates| && ErrorAt(dates, i).None? && IsMajor(dates, i)
    ensures Describes(dates, i + 1, Ticks(t.labels + [LabelAt(dates, i)], t.major + [i], t.minor))
  {
  }

  /** A minor tick at index i extends the labelling of the first i dates without a label. */
  lemma DescribesMinorStep(dates: seq<string>, i: nat, t: Ticks)
    requires Describes(dates, i, t)
    requires i < |dates| && ErrorAt(dates, i).None? && !IsMajor(dates, i)
    ensures Describes(dates, i + 1, Ticks(t.labels, t.major, t.minor + [i]))
  {
  }

  /** The labelling loop. It succeeds exactly when no date raises an error, and then
      returns the labelling of all dates; otherwise it reports the first error. */
  method FormatLabels(dates: seq<string>) returns (r: Result<Ticks, LabelError>)
    ensures r.Ok? <==> Clean(dates, |dates|)
    ensures r.Ok? ==> Describes(dates, |dates|, r.value)
    ensures r.Err? ==> r.error.at < |dates| && Clean(dates, r.error.at)
                       && ErrorAt(dates, r.error.at) == Some(r.error)
  {
    var labels: seq<string> := [];
    var major: seq<nat> := [];
    var minor: seq<nat> := [];
    for i := 0 to |dates|
      invariant Describes(dates, i, Ticks(labels, major, minor))
    {
      var fields := Split(dates[i], '-');
      if |fields| != 3 {
        assert ErrorAt(dates, i).Some?;
        return Err(MalformedDate(i, |fields|));
      }
      var month, day := fields[1], fields[2];
      if i == 0 {
        var abbrev := MonthAbbrev(month);
        if abbrev.None? {
          assert ErrorAt(dates, i).Some?;
          return Err(UnknownMonth(i, month));
        }
        DescribesMajorStep(dates, i, Ticks(labels, major, minor));
        labels := labels + [day + "-" + abbrev.value];
        major := major + [i];
      } else if day == "01" {
        var abbrev := MonthAbbrev(month);
        if abbrev.None? {
          assert ErrorAt(dates, i).Some?;
          return Err(UnknownMonth(i, month));
        }
        DescribesMajorStep(dates, i, Ticks(labels, major, minor));
        labels := labels + [abbrev.value + [Arrow]];
        major := major + [i];
      } else {
        DescribesMinorStep(dates, i, Ticks(labels, major, minor));
        minor := minor + [i];
      }
    }
    return Ok(Ticks(labels, major, minor));
  }

  /** Every index below n sits in exactly one tick list, so together the lists hold n indices. */
  lemma {:induction false} TickCount(dates: seq<string>, n: nat, t: Ticks)
    requires Describes(dates, n, t)
    ensures |t.major| + |t.minor| == n
  {
    if n > 0 {
      assert ErrorAt(dates, n - 1).None?;
      if IsMajor(dates, n - 1) {
        var m := |t.major| - 1;
        DescribesMajorRetract(dates, n, t);
        TickCount(dates, n - 1, Ticks(t.labels[..m], t.major[..m], t.minor));
      } else {
        var m := |t.minor| - 1;
        DescribesMinorRetract(dates, n, t);
        TickCount(dates, n - 1, Ticks(t.labels, t.major, t.minor[..m]));
      }
    }
  }

  /** Undoes DescribesMajorStep: a major last index is the last major tick. */
  lemma DescribesMajorRetract(dates: seq<string>, n: nat, t: Ticks)
    requires Describes(dates, n, t) && n > 0
    requires ErrorAt(dates, n - 1).None? && IsMajor(dates, n - 1)
    ensures |t.major| > 0 && t.major[|t.major| - 1] == n - 1
    ensures var m := |t.major| - 1; Describes(dates, n - 1, Ticks(t.labels[..m], t.major[..m], t.minor))
  {

  }

  /** Undoes DescribesMinorStep: a minor last index is the last minor tick. */
  lemma DescribesMinorRetract(dates: seq<string>, n: nat, t: Ticks)
    requires Describes(dates, n, t) && n > 0
    requires ErrorAt(dates, n - 1).None? && !IsMajor(dates, n - 1)
    ensures |t.minor| > 0 && t.minor[|t.minor| - 1] == n - 1
    ensures var m := |t.minor| - 1; Describes(dates, n - 1, Ticks(t.labels, t.major, t.minor[..m]))
  {

  }

  /** Two increasing lists with the same elements are the same list. */
  lemma {:induction false} IncreasingUnique(a: seq<nat>, b: seq<nat>)
    requires StrictlyIncreasing(a) && StrictlyIncreasing(b)
    requires forall x :: x in a <==> x in b
    ensures a == b
    decreases |a| + |b|
  {
    assert b != [] ==> b[0] in b;
    if a != [] {
      assert a[0] in b;
      var i :| 0 <= i < |b| && b[i] == a[0];
      var j :| 0 <= j < |a| && a[j] == b[0];
      assert a[0] <= a[j] && b[0] <= b[i];
      forall x ensures x in a[1..] <==> x in b[1..] {
        assert x in a[1..] <==> x in a && x != a[0];
        assert x in b[1..] <==> x in b && x != b[0];
      }
      IncreasingUnique(a[1..], b[1..]);
      assert a == [a[0]] + a[1..] && b == [b[0]] + b[1..];
    } else if b != [] {
      assert false;
    }
  }

  /** The description fixes the labelling: the loop could return nothing else. */
  lemma TicksUnique(dates: seq<string>, n: nat, t1: Ticks, t2: Ticks)
    requires Describes(dates, n, t1) && Describes(dates, n, t2)
    ensures t1 == t2
  {
    forall x ensures x in t1.major <==> x in t2.major {
      if x in t1.major {
        var k :| 0 <= k < |t1.major| && t1.major[k] == x;
        assert x < n;
      }
      if x in t2.major {
        var k :| 0 <= k < |t2.major| && t2.major[k] == x;
        assert x < n;
      }
    }
    forall x ensures x in t1.minor <==> x in t2.minor {
      if x in t1.minor {
        var k :| 0 <= k < |t1.minor| && t1.minor[k] == x;
        assert x < n;
      }
      if x in t2.minor {
        var k :| 0 <= k < |t2.minor| && t2.minor[k] == x;
        assert x < n;
      }
    }
    IncreasingUnique(t1.major, t2.major);
    IncreasingUnique(t1.minor, t2.minor);
  }

  /** The first date always opens the major ticks with a "DD-Mon" label, even when it is a
      first of the month; every later label is a month and an arrow on a first of the month. */
  lemma LabelShapes(dates: seq<string>, t: Ticks)
    requires Describes(dates, |dates|, t) && |dates| > 0
    ensures |t.major| > 0 && t.major[0] == 0
    ensures ErrorAt(dates, 0).None?
            && t.labels[0] == DayField(dates[0]) + "-" + MonthAbbrev(MonthField(dates[0])).value
    ensures forall k :: 1 <= k < |t.major| ==>
              && 0 < t.major[k] < |dates| && ErrorAt(dates, t.major[k]).None?
              && DayField(dates[t.major[k]]) == "01"
              && t.labels[k] == MonthAbbrev(MonthField(dates[t.major[k]])).value + [Arrow]
  {
    assert ErrorAt(dates, 0).None? && IsMajor(dates, 0);
    var k :| 0 <= k < |t.major| && t.major[k] == 0;
    assert t.major[0] <= t.major[k];
    forall j | 1 <= j < |t.major| ensures 0 < t.major[j] < |dates| && ErrorAt(dates, t.major[j]).None? {
      assert t.major[0] < t.major[j];
    }
  }

  /** A well-formed date without separators in its fields splits back into them. */
  lemma SplitDate(date: string, year: string, month: string, day: string)
    requires date == year + "-" + month + "-" + day
    requires '-' !in year && '-' !in month && '-' !in day
    ensures Split(date, '-') == [year, month, day]
    ensures Fields(date, month, day)
  {
    assert year + "-" + month + "-" + day == year + ['-'] + (month + ['-'] + day);
    SplitAfterPart(year, '-', month + ['-'] + day);
    SplitAfterPart(month, '-', day);
    SplitNoSeparator(day, '-');
  }

  /** The date has the given month and day fields (its year does not matter here). */
  predicate Fields(date: string, month: string, day: string)
  {
    WellFormed(date) && MonthField(date) == month && DayField(date) == day
  }

  // The examples below name each date by its fields; SplitDate shows that a date written
  // out as text, such as "2020-03-15", has the fields it is named by, and the examples
  // after them restate these with the dates written out.

  /** Mid-March to early April: the first entry and April 1st are major. */
  lemma ExampleMarchApril(d0: string, d1: string, d2: string, d3: string)
    requires Fields(d0, "03", "15") && Fields(d1, "03", "16")
    requires Fields(d2, "04", "01") && Fields(d3, "04", "02")
    ensures Describes([d0, d1, d2, d3], 4, Ticks(["15-Mar", "Apr" + [Arrow]], [0, 2], [1, 3]))
  {
    var dates := [d0, d1, d2, d3];
    MarchAprilEntries(d0, d1, d2, d3);
    MarchAprilFirstHalf(d0, d1, d2, d3);
    var t2 := Ticks(["15-Mar"], [0], [1]);
    DescribesMajorStep(dates, 2, t2);
    var t3 := Ticks(t2.labels + [LabelAt(dates, 2)], t2.major + [2], t2.minor);
    DescribesMinorStep(dates, 3, t3);
  }

  /** The first two entries of ExampleMarchApril. */
  lemma MarchAprilFirstHalf(d0: string, d1: string, d2: string, d3: string)
    requires Fields(d0, "03", "15") && Fields(d1, "03", "16")
    requires Fields(d2, "04", "01") && Fields(d3, "04", "02")
    ensures Describes([d0, d1, d2, d3], 2, Ticks(["15-Mar"], [0], [1]))
  {
    var dates := [d0, d1, d2, d3];
    MarchAprilEntries(d0, d1, d2, d3);
    var t0 := Ticks([], [], []);
    DescribesMajorStep(dates, 0, t0);
    var t1 := Ticks(t0.labels + [LabelAt(dates, 0)], t0.major + [0], t0.minor);
    DescribesMinorStep(dates, 1, t1);
  }

  /** The entry-by-entry facts behind ExampleMarchApril. */
  lemma MarchAprilEntries(d0: string, d1: string, d2: string, d3: string)
    requires Fields(d0, "03", "15") && Fields(d1, "03", "16")
    requires Fields(d2, "04", "01") && Fields(d3, "04", "02")
    ensures var dates := [d0, d1, d2, d3];
      && ErrorAt(dates, 0).None? && IsMajor(dates, 0) && LabelAt(dates, 0) == "15-Mar"
      && ErrorAt(dates, 1).None? && !IsMajor(dates, 1)
      && ErrorAt(dates, 2).None? && IsMajor(dates, 2) && LabelAt(dates, 2) == "Apr" + [Arrow]
      && ErrorAt(dates, 3).None? && !IsMajor(dates, 3)
  {
  }

  /** A single first-of-month entry gets the first-entry label, not the arrow label. */
  lemma ExampleFirstEntryWins(d0: string)
    requires Fields(d0, "01", "01")
    ensures Describes([d0], 1, Ticks(["01-Jan"], [0], []))
  {
    assert MonthAbbrev("01") == Some("Jan");
    assert LabelAt([d0], 0) == "01-Jan";
  }

  /** Month 13 on a major tick raises the unknown-month error. */
  lemma ExampleUnknownMonth(d0: string)
    requires Fields(d0, "13", "01")
    ensures ErrorAt([d0], 0) == Some(UnknownMonth(0, "13"))
  {
    assert MonthAbbrev("13") == None;
  }

  /** Month 13 on a minor tick is never looked up, so it raises nothing. */
  lemma ExampleMinorSkipsLookup(d0: string, d1: string)
    requires Fields(d0, "03", "15") && Fields(d1, "13", "02")
    ensures Describes([d0, d1], 2, Ticks(["15-Mar"], [0], [1]))
  {
    assert MonthAbbrev("03") == Some("Mar");
    assert LabelAt([d0, d1], 0) == "15-Mar";
    assert !IsMajor([d0, d1], 1);
  }

  /** A date with one separator too few is malformed wherever it stands. */
  lemma ExampleMalformed(d0: string, d1: string)
    requires Fields(d0, "03", "15") && Split(d1, '-') == ["2020", "03"]
    ensures ErrorAt([d0, d1], 1) == Some(MalformedDate(1, 2))
  {
  }

  // The same examples with the dates written out as the CSV file spells them.

  /** The March-April example as text: the dates are clean and this is their only labelling,
      so it is what the loop returns. */
  lemma ExampleMarchAprilText(d0: string, d1: string, d2: string, d3: string)
    requires d0 == "2020-03-15" && d1 == "2020-03-16" && d2 == "2020-04-01" && d3 == "2020-04-02"
    ensures Describes([d0, d1, d2, d3], 4, Ticks(["15-Mar", "Apr" + [Arrow]], [0, 2], [1, 3]))
    ensures Clean([d0, d1, d2, d3], 4)
    ensures forall t :: Describes([d0, d1, d2, d3], 4, t) ==> t == Ticks(["15-Mar", "Apr" + [Arrow]], [0, 2], [1, 3])
  {
    SplitDate(d0, "2020", "03", "15");
    SplitDate(d1, "2020", "03", "16");
    SplitDate(d2, "2020", "04", "01");
    SplitDate(d3, "2020", "04", "02");
    ExampleMarchApril(d0, d1, d2, d3);
    forall t | Describes([d0, d1, d2, d3], 4, t)
      ensures t == Ticks(["15-Mar", "Apr" + [Arrow]], [0, 2], [1, 3])
    {
      TicksUnique([d0, d1, d2, d3], 4, t, Ticks(["15-Mar", "Apr" + [Arrow]], [0, 2], [1, 3]));
    }
  }

  /** New Year's Day as the only entry is labelled "01-Jan", not "Jan" and an arrow. */
  lemma ExampleFirstEntryWinsText()
    ensures Describes(["2020-01-01"], 1, Ticks(["01-Jan"], [0], []))
  {
    SplitDate("2020-01-01", "2020", "01", "01");
    ExampleFirstEntryWins("2020-01-01");
  }

  /** "2020-13-01" as the first entry stops the loop on the month lookup. */
  lemma ExampleUnknownMonthText()
    ensures ErrorAt(["2020-13-01"], 0) == Some(UnknownMonth(0, "13"))
    ensures !Clean(["2020-13-01"], 1)
  {
    SplitDate("2020-13-01", "2020", "13", "01");
    ExampleUnknownMonth("2020-13-01");
  }

  /** "2020-3-5" passes the three-field check: as a later entry it is a clean minor tick. */
  lemma ExampleShortFieldsLater()
    ensures ErrorAt(["2020-03-15", "2020-3-5"], 1).None? && !IsMajor(["2020-03-15", "2020-3-5"], 1)
  {
    SplitDate("2020-3-5", "2020", "3", "5");
  }

  /** As the first entry, "2020-3-5" is a major tick and its month "3" is not in the table. */
  lemma ExampleShortFieldsFirst()
    ensures ErrorAt(["2020-3-5"], 0) == Some(UnknownMonth(0, "3"))
  {
    SplitDate("2020-3-5", "2020", "3", "5");
  }
}
