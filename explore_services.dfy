/**
 * The public services page's labels: durations as "<m> min", "<h>h" or
 * "<h>h <m>m", and prices, where a price of zero reads "Free".
 */
module ExploreServices {
  import opened Wrappers
  import opened Text
  import ServicesIndex

  /** `formatDuration(minutes)` of the public page. */
  function FormatDuration(minutes: int): (r: string)
    ensures 'h' in r <==> minutes >= 60
  {
    if minutes < 60 then
      assert 'h' !in IntToString(minutes) + " min" by {
        if minutes >= 0 {
          ServicesIndex.NumeralWithoutH(minutes, " min");
        } else {
          ServicesIndex.NumeralWithoutH(-minutes, " min");
          assert IntToString(minutes) + " min" == "-" + (NatToString(-minutes) + " min");
        }
      }
      IntToString(minutes) + " min"
    else
      var h := minutes / 60;
      var m := JsRem(minutes, 60);
      var hours := IntToString(h) + "h";
      assert hours[|hours| - 1] == 'h';
      if m != 0 then
        assert (hours + " " + IntToString(m) + "m")[|hours| - 1] == 'h';
        hours + " " + IntToString(m) + "m"
      else hours
  }

  /** Reads a label back into minutes: "<m> min", "<h>h" or "<h>h <m>m". */
  function ParseDuration(s: string): Option<int> {
    match ParseSuffixed(s, " min")
    case Some(m) => Some(m)
    case None =>
      var parts := Split(s, ' ');
      if |parts| == 1 then
        match ParseSuffixed(parts[0], "h")
        case Some(h) => Some(h * 60)
        case None => None
      else if |parts| == 2 then
        match (ParseSuffixed(parts[0], "h"), ParseSuffixed(parts[1], "m"))
        case (Some(h), Some(m)) => Some(h * 60 + m)
        case _ => None
      else None
  }

  /** The shapes of the label from an hour on: whole hours carry no trailing
      text, and otherwise the minute part lies in 1..59 and hours * 60 +
      minutes gives the duration back. */
  lemma FormatDurationShape(minutes: int)
    requires minutes >= 60
    ensures minutes % 60 == 0 ==> FormatDuration(minutes) == NatToString(minutes / 60) + "h"
    ensures minutes % 60 != 0 ==>
      && FormatDuration(minutes) == NatToString(minutes / 60) + "h " + NatToString(minutes % 60) + "m"
      && 1 <= minutes % 60 <= 59
    ensures (minutes / 60) * 60 + minutes % 60 == minutes
  {
  }

  /** A label ending in a numeral and "h" or "m" never ends in " min". */
  lemma NotMinLabel(prefix: string, n: nat, unit: string)
    requires unit == "h" || unit == "m"
    ensures ParseSuffixed(prefix + NatToString(n) + unit, " min") == None
  {
    var digits := NatToString(n);
    var s := prefix + digits + unit;
    assert s[|s| - 2] == digits[|digits| - 1];
    assert IsDigit(s[|s| - 2]);
    if |" min"| < |s| {
      assert s[|s| - 4..][2] == s[|s| - 2];
    }
  }

  /** Every label of a duration that is not negative reads back as that
      duration. */
  lemma FormatDurationRoundTrip(minutes: int)
    requires minutes >= 0
    ensures ParseDuration(FormatDuration(minutes)) == Some(minutes)
  {
    if minutes < 60 {
      ParseSuffixedNumeral(minutes, " min");
    } else {
      FormatDurationShape(minutes);
      if minutes % 60 == 0 {
        ParseHoursLabel(minutes / 60);
      } else {
        ParseMixedLabel(minutes / 60, minutes % 60);
      }
    }
  }

  /** "<h>h" reads back as h hours. */
  lemma ParseHoursLabel(h: nat)
    ensures ParseDuration(NatToString(h) + "h") == Some(h * 60)
  {
    var s := NatToString(h) + "h";
    NotMinLabel("", h, "h");
    assert "" + s == s;
    NumeralSpaceless(h, "h");
    JoinSplit([s], ' ');
    ParseSuffixedNumeral(h, "h");
    ParseOnePart(s, h);
  }

  /** A label that does not end in " min" and has no space reads as hours. */
  lemma ParseOnePart(s: string, h: nat)
    requires ParseSuffixed(s, " min") == None && Split(s, ' ') == [s]
    requires ParseSuffixed(s, "h") == Some(h)
    ensures ParseDuration(s) == Some(h * 60)
  {
  }

  /** "<h>h <m>m" reads back as h hours and m minutes. */
  lemma ParseMixedLabel(h: nat, m: nat)
    ensures ParseDuration(NatToString(h) + "h " + NatToString(m) + "m") == Some(h * 60 + m)
  {
    var tail := NatToString(m) + "m";
    var shown := NatToString(h) + "h " + tail;
    assert NatToString(h) + "h " + NatToString(m) + "m" == shown;
    NumeralSpaceless(m, "m");
    NotMinLabel(NatToString(h) + "h ", m, "m");
    ServicesIndex.HoursLabel(h, tail);
    ParseSuffixedNumeral(m, "m");
    ParseTwoParts(shown, NatToString(h) + "h", tail, h, m);
  }

  /** A label that does not end in " min" and splits into an hour head and a
      minute tail reads as the sum. */
  lemma ParseTwoParts(s: string, head: string, tail: string, h: nat, m: nat)
    requires ParseSuffixed(s, " min") == None && Split(s, ' ') == [head, tail]
    requires ParseSuffixed(head, "h") == Some(h) && ParseSuffixed(tail, "m") == Some(m)
    ensures ParseDuration(s) == Some(h * 60 + m)
  {
  }

  /** Different durations that are not negative get different labels on the
      explore page ("<m> min" under an hour); the same statement about the
      services list's labels rests on that page's parser instead. */
  lemma FormatDurationInjective(a: int, b: int)
    requires a >= 0 && b >= 0 && FormatDuration(a) == FormatDuration(b)
    ensures a == b
  {
    FormatDurationRoundTrip(a);
    FormatDurationRoundTrip(b);
  }

  /** The two pages label the same duration differently: under an hour "min"
      against "m", and on the hour no trailing space against one. */
  lemma LabelsDiffer()
    ensures FormatDuration(45) == "45 min" && ServicesIndex.FormatDuration(45) == "45m"
    ensures FormatDuration(120) == "2h" && ServicesIndex.FormatDuration(120) == "2h "
    ensures FormatDuration(90) == ServicesIndex.FormatDuration(90) == "1h 30m"
  {
    assert JsRem(45, 60) == 45 && JsRem(120, 60) == 0 && JsRem(90, 60) == 30;
    assert IntToString(45) == "45" && IntToString(2) == "2";
    assert IntToString(1) == "1" && IntToString(30) == "30";
  }

  /** `formatPrice(price)`, given what the en-US dollar currency formatter
      makes of the price: zero is "Free", anything else the formatted
      amount. */
  function FormatPrice(price: real, formatted: string): (r: string)
    ensures r == "Free" <==> price == 0.0 || formatted == "Free"
    ensures r == "Free" || r == formatted
  {
    if price == 0.0 then "Free" else formatted
  }
}
