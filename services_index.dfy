/**
 * The services list's duration label: whole hours and the remaining minutes,
 * as "<m>m", "<h>h " (with its trailing space) or "<h>h <m>m". Durations are
 * integer minutes.
 */
module ServicesIndex {
  import opened Wrappers
  import opened Text

  /** `Math.floor(minutes / 60)`. */
  function Hours(minutes: int): int {
    minutes / 60
  }

  /** `minutes % 60`, with JavaScript's sign rule. */
  function Mins(minutes: int): int {
    JsRem(minutes, 60)
  }

  /** `formatDuration(minutes)`. */
  function FormatDuration(minutes: int): (r: string)
    ensures 'h' in r <==> minutes >= 60
  {
    var hours := Hours(minutes);
    var mins := Mins(minutes);
    if hours > 0 then
      IntToString(hours) + "h " + (if mins > 0 then IntToString(mins) + "m" else "")
    else
      assert 'h' !in IntToString(mins) + "m" by {
        if mins >= 0 {
          NumeralWithoutH(mins, "m");
        } else {
          NumeralWithoutH(-mins, "m");
          assert IntToString(mins) + "m" == "-" + (NatToString(-mins) + "m");
        }
      }
      IntToString(mins) + "m"
  }

  /** A numeral followed by a unit other than "h" holds no "h". */
  lemma NumeralWithoutH(n: nat, unit: string)
    requires 'h' !in unit
    ensures 'h' !in NatToString(n) + unit
  {
    var digits := NatToString(n);
    forall k | 0 <= k < |digits + unit| ensures (digits + unit)[k] != 'h' {
      if k < |digits| {
        assert IsDigit(digits[k]);
      } else {
        assert unit[k - |digits|] in unit;
      }
    }
  }

  /** The hours and minutes split the duration: for a duration that is not
      negative the minute part lies in 0..59 and hours * 60 + minutes gives
      the duration back. */
  lemma DurationParts(minutes: int)
    requires minutes >= 0
    ensures 0 <= Mins(minutes) < 60 && Hours(minutes) >= 0
    ensures Hours(minutes) * 60 + Mins(minutes) == minutes
    ensures Hours(minutes) > 0 <==> minutes >= 60
  {
  }

  /** Reads a label back into minutes: "<m>m", "<h>h " or "<h>h <m>m". */
  function ParseDuration(s: string): Option<int> {
    var parts := Split(s, ' ');
    if |parts| == 1 then
      match ParseSuffixed(parts[0], "m")
      case Some(m) => Some(m)
      case None => None
    else if |parts| == 2 then
      match ParseSuffixed(parts[0], "h")
      case None => None
      case Some(h) =>
        if parts[1] == "" then Some(h * 60)
        else
          match ParseSuffixed(parts[1], "m")
          case Some(m) => Some(h * 60 + m)
          case None => None
    else None
  }

  /** The three shapes of the label for a duration that is not negative. */
  lemma FormatDurationShape(minutes: int)
    requires minutes >= 0
    ensures minutes < 60 ==> FormatDuration(minutes) == NatToString(minutes) + "m"
    ensures minutes >= 60 && minutes % 60 == 0 ==> FormatDuration(minutes) == NatToString(minutes / 60) + "h "
    ensures minutes >= 60 && minutes % 60 != 0 ==>
      FormatDuration(minutes) == NatToString(minutes / 60) + "h " + NatToString(minutes % 60) + "m"
  {
  }

  /** Every label of a duration that is not negative reads back as that
      duration. */
  lemma FormatDurationRoundTrip(minutes: int)
    requires minutes >= 0
    ensures ParseDuration(FormatDuration(minutes)) == Some(minutes)
  {
    FormatDurationShape(minutes);
    DurationParts(minutes);
    if minutes < 60 {
      ParseMinutesLabel(minutes);
    } else if minutes % 60 == 0 {
      ParseHoursLabel(minutes / 60);
    } else {
      ParseMixedLabel(minutes / 60, minutes % 60);
    }
  }

  /** "<m>m" reads back as m. */
  lemma ParseMinutesLabel(m: nat)
    ensures ParseDuration(NatToString(m) + "m") == Some(m)
  {
    var s := NatToString(m) + "m";
    NumeralSpaceless(m, "m");
    JoinSplit([s], ' ');
    ParseSuffixedNumeral(m, "m");
  }

  /** "<h>h " reads back as h hours. */
  lemma ParseHoursLabel(h: nat)
    ensures ParseDuration(NatToString(h) + "h ") == Some(h * 60)
  {
    HoursLabel(h, "");
    var shown := NatToString(h) + "h ";
    assert shown + "" == shown;
    ParseWholeHours(shown, NatToString(h) + "h", h);
  }

  /** A label split into an hour head and an empty tail reads as the hours. */
  lemma ParseWholeHours(s: string, head: string, h: nat)
    requires Split(s, ' ') == [head, ""] && ParseSuffixed(head, "h") == Some(h)
    ensures ParseDuration(s) == Some(h * 60)
  {
  }

  /** "<h>h <m>m" reads back as h hours and m minutes. */
  lemma ParseMixedLabel(h: nat, m: nat)
    ensures ParseDuration(NatToString(h) + "h " + NatToString(m) + "m") == Some(h * 60 + m)
  {
    var tail := NatToString(m) + "m";
    var shown := NatToString(h) + "h " + tail;
    assert NatToString(h) + "h " + NatToString(m) + "m" == shown;
    NumeralSpaceless(m, "m");
    HoursLabel(h, tail);
    ParseSuffixedNumeral(m, "m");
    ParseTwoParts(shown, NatToString(h) + "h", tail, h, m);
  }

  /** A label split into an hour head and a non-empty minute tail reads as
      the sum. */
  lemma ParseTwoParts(s: string, head: string, tail: string, h: nat, m: nat)
    requires Split(s, ' ') == [head, tail] && tail != ""
    requires ParseSuffixed(head, "h") == Some(h) && ParseSuffixed(tail, "m") == Some(m)
    ensures ParseDuration(s) == Some(h * 60 + m)
  {
  }

  /** A label with an hour part splits at its one space; its head reads
      back as the hours. */
  lemma HoursLabel(h: nat, tail: string)
    requires ' ' !in tail
    ensures Split(NatToString(h) + "h " + tail, ' ') == [NatToString(h) + "h", tail]
    ensures ParseSuffixed(NatToString(h) + "h", "h") == Some(h)
  {
    var head := NatToString(h) + "h";
    NumeralSpaceless(h, "h");
    assert NatToString(h) + "h " + tail == Join([head, tail], ' ');
    JoinSplit([head, tail], ' ');
    ParseSuffixedNumeral(h, "h");
  }

  /** Different durations that are not negative get different labels on the
      services list ("<h>h <m>m" labels); the explore page's "<m> min" labels
      have their own lemma of the same shape, about their own parser. */
  lemma FormatDurationInjective(a: int, b: int)
    requires a >= 0 && b >= 0 && FormatDuration(a) == FormatDuration(b)
    ensures a == b
  {
    FormatDurationRoundTrip(a);
    FormatDurationRoundTrip(b);
  }

  /** A negative duration shows only its truncated remainder: no hour part,
      so -5 and -65 minutes both read "-5m". */
  lemma NegativeDurations(minutes: int)
    requires minutes < 0
    ensures FormatDuration(minutes) == IntToString(-((-minutes) % 60)) + "m"
    ensures FormatDuration(-5) == FormatDuration(-65)
  {
  }

  // ---------------------------------------------------------------------------
  // The label in the services table

  /** A service row as the list page receives it: the table's columns, so
      the duration is under `duration_minutes`; the row has no `duration`
      field. */
  datatype ServiceRow = ServiceRow(name: string, durationMinutes: int)

  /** A JavaScript number operand: an integer, or NaN, which is what
      arithmetic on `undefined` gives. */
  datatype JsNumber = Int(value: int) | NaN

  /** `formatDuration` on a JavaScript number. On NaN, `hours` and `mins` are
      NaN, `NaN > 0` is false, and the template writes "NaN" and then "m". */
  function FormatDurationNumber(x: JsNumber): (r: string)
    ensures x.Int? ==> ('h' in r <==> x.value >= 60)
    ensures x.NaN? ==> forall n :: FormatDuration(n) != r
  {
    match x
    case Int(n) => FormatDuration(n)
    case NaN =>
      NaNNotALabel();
      "NaN" + "m"
  }

  /** No integer duration is labelled "NaNm": every label of an integer
      starts with a digit or a minus sign. */
  lemma NaNNotALabel()
    ensures forall n :: FormatDuration(n) != "NaNm"
  {
    forall n ensures FormatDuration(n) != "NaNm" {
      if n < 60 {
        var mins := Mins(n);
        var s := IntToString(mins);
        assert FormatDuration(n) == s + "m";
        if mins >= 0 {
          assert IsDigit(s[0]);
        } else {
          assert s[0] == '-';
        }
        assert (s + "m")[0] == s[0];
      } else {
        assert 'h' !in "NaNm";
      }
    }
  }

  /** The table cell as written: `formatDuration(service.duration)` reads a
      field the row does not have, so every row shows the same text, which
      no duration produces. */
  function ListedDurationAsWritten(row: ServiceRow): (r: string)
    ensures forall n :: FormatDuration(n) != r
    ensures r == "NaNm"
  {
    FormatDurationNumber(NaN)
  }

  /** The table cell as intended: the label of the row's `duration_minutes`,
      which reads back as the stored duration. */
  function ListedDuration(row: ServiceRow): (r: string)
    ensures 'h' in r <==> row.durationMinutes >= 60
    ensures row.durationMinutes >= 0 ==> ParseDuration(r) == Some(row.durationMinutes)
  {
    var minutes := row.durationMinutes;
    if minutes >= 0 then
      FormatDurationRoundTrip(minutes);
      FormatDurationNumber(Int(minutes))
    else
      FormatDurationNumber(Int(minutes))
  }
}
