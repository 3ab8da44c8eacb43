/**
 * The derivations of the dashboard repository: clock-time text, customer
 * initials, the Monday-based week, today's counts, the completion-rate
 * guard, and the mapping of query rows into the "upcoming today" list and the
 * weekly overview. The query rows, and every date reading Carbon takes from
 * them (hour, minute, day of week, day index in the week), are inputs.
 */
module DashboardRepository {
  import opened Wrappers
  import opened Text
  import opened Appointments

  /** What Carbon's `getHour()` and `getMinute()` return. */
  type Hour = h: int | 0 <= h < 24
  type Minute = m: int | 0 <= m < 60

  /** What Carbon's `getDayOfWeek()` returns: 0 for Sunday to 6 for Saturday. */
  type DayOfWeek = d: int | 0 <= d <= 6

  // ===========================================================================
  // formatTime

  /** `m === 0 ? "00" : String(m).padStart(2, "0")`: always two digits that
      read back as the minute. */
  function MinuteText(m: Minute): (r: string)
    ensures |r| == 2 && AllDigits(r)
    ensures ParseNat(r) == Some(m)
  {
    if m == 0 then
      LeadingZero('0');
      ParseNatToString(0);
      assert NatToString(0) == "0";
      "00"
    else
      var digits := NatToString(m);
      ParseNatToString(m);
      if m < 10 then
        var r := PadStart2(digits);
        assert digits == [DigitChar(m)];
        assert r == ['0', DigitChar(m)];
        LeadingZero(DigitChar(m));
        r
      else
        assert |NatToString(m / 10)| == 1;
        PadStart2(digits)
  }

  /** `h % 12 || 12`: the hour on a twelve-hour clock. */
  function Hour12(h: Hour): int {
    if h % 12 == 0 then 12 else h % 12
  }

  /** `formatTime`: "9:05 AM", "12:00 PM". */
  function FormatTime(h: Hour, m: Minute): string {
    var ampm := if h >= 12 then "PM" else "AM";
    NatToString(Hour12(h)) + ":" + MinuteText(m) + " " + ampm
  }

  /** The pieces of an "H:MM XM" text: hour digits, minute digits, suffix. */
  function HourPart(s: string): string requires |s| >= 6 { s[..|s| - 6] }
  function MinutePart(s: string): string requires |s| >= 6 { s[|s| - 5..|s| - 3] }
  function SuffixPart(s: string): string requires |s| >= 6 { s[|s| - 2..] }

  /** Reads a `formatTime` text back into the hour and the minute. */
  function DecodeTime(s: string): Option<(int, int)> {
    if |s| < 7 then None
    else
      match (ParseNat(HourPart(s)), ParseNat(MinutePart(s)))
      case (Some(h12), Some(m)) =>
        if SuffixPart(s) == "PM" then Some((h12 % 12 + 12, m)) else Some((h12 % 12, m))
      case _ => None
  }

  /** Where the pieces of an "H:MM XM" text sit. */
  lemma TimeLayout(hourText: string, minuteText: string, suffix: string)
    requires |minuteText| == 2 && |suffix| == 2
    ensures var s := hourText + ":" + minuteText + " " + suffix;
      && |s| == |hourText| + 6
      && HourPart(s) == hourText && s[|s| - 6] == ':'
      && MinutePart(s) == minuteText && s[|s| - 3] == ' '
      && SuffixPart(s) == suffix
  {
  }

  /** `h % 12 || 12` is an hour from 1 to 12 that agrees with `h` modulo 12:
      midnight is 12 and noon is 12. */
  lemma Hour12Range(h: Hour)
    ensures 1 <= Hour12(h) <= 12 && Hour12(h) % 12 == h % 12
    ensures h == 0 || h == 12 <==> Hour12(h) == 12
  {
  }

  /** The parts of a `formatTime` text: the twelve-hour clock hour, two
      minute digits that read back as `m`, and "PM" exactly from noon on. */
  lemma FormatTimeParts(h: Hour, m: Minute)
    ensures |FormatTime(h, m)| >= 7
    ensures ParseNat(HourPart(FormatTime(h, m))) == Some(Hour12(h))
    ensures |MinutePart(FormatTime(h, m))| == 2 && ParseNat(MinutePart(FormatTime(h, m))) == Some(m)
    ensures SuffixPart(FormatTime(h, m)) == if h >= 12 then "PM" else "AM"
  {
    var hourText := NatToString(Hour12(h));
    var minuteText := MinuteText(m);
    var ampm := if h >= 12 then "PM" else "AM";
    TimeLayout(hourText, minuteText, ampm);
    assert FormatTime(h, m) == hourText + ":" + minuteText + " " + ampm;
    ParseNatToString(Hour12(h));
  }

  /** `formatTime` loses nothing: the hour and minute are read back from it. */
  lemma FormatTimeRoundTrip(h: Hour, m: Minute)
    ensures DecodeTime(FormatTime(h, m)) == Some((h, m))
  {
    var s := FormatTime(h, m);
    FormatTimeParts(h, m);
    DecodeFrom(s, Hour12(h), m);
    DecodeHour(s, h, m);
  }

  lemma DecodeHour(s: string, h: Hour, m: Minute)
    requires |s| >= 7 && SuffixPart(s) == if h >= 12 then "PM" else "AM"
    requires DecodeTime(s) == Some((if SuffixPart(s) == "PM" then Hour12(h) % 12 + 12 else Hour12(h) % 12, m))
    ensures DecodeTime(s) == Some((h, m))
  {
    Hour12Range(h);
    if h < 12 {
      assert SuffixPart(s) != "PM" by {
        assert "AM"[0] != "PM"[0];
      }
    }
  }

  lemma DecodeFrom(s: string, h12: nat, m: nat)
    requires |s| >= 7
    requires ParseNat(HourPart(s)) == Some(h12) && ParseNat(MinutePart(s)) == Some(m)
    ensures DecodeTime(s) == Some((if SuffixPart(s) == "PM" then h12 % 12 + 12 else h12 % 12, m))
  {
  }

  /** Different clock times never display alike. */
  lemma FormatTimeInjective(h1: Hour, m1: Minute, h2: Hour, m2: Minute)
    requires FormatTime(h1, m1) == FormatTime(h2, m2)
    ensures h1 == h2 && m1 == m2
  {
    FormatTimeRoundTrip(h1, m1);
    FormatTimeRoundTrip(h2, m2);
  }

  // ===========================================================================
  // getInitials

  /** `getInitials(firstName, lastName)`: the upper-cased first character of
      each trimmed name, or "?" when both are blank. */
  function GetInitials(firstName: Option<string>, lastName: Option<string>): (r: string)
    ensures |r| <= 2 && r != ""
  {
    var f := ToUpper(FirstChar(Trim(firstName.GetOr(""))));
    var l := ToUpper(FirstChar(Trim(lastName.GetOr(""))));
    if f + l != "" then f + l else "?"
  }

  /** The initials are "?" when both names are blank (or missing), and
      otherwise the first non-blank character of each name, upper-cased. */
  lemma GetInitialsSpec(firstName: Option<string>, lastName: Option<string>)
    ensures var first, last := firstName.GetOr(""), lastName.GetOr("");
      if AllSpace(first) && AllSpace(last) then GetInitials(firstName, lastName) == "?"
      else GetInitials(firstName, lastName) == ToUpper(FirstNonBlank(first)) + ToUpper(FirstNonBlank(last))
  {
    TrimmedStart(firstName.GetOr(""));
    TrimmedStart(lastName.GetOr(""));
  }

  // ===========================================================================
  // getDateRanges: the week starts on Monday

  /** `dayOfWeek === 0 ? 6 : dayOfWeek - 1`: the days back to Monday. Going
      back that many days lands on a Monday (day 1), and the six days after
      it end on a Sunday (day 0). */
  function WeekStartOffset(dayOfWeek: DayOfWeek): (r: int)
    ensures 0 <= r <= 6
    ensures (dayOfWeek - r) % 7 == 1
    ensures (dayOfWeek - r + 6) % 7 == 0
  {
    if dayOfWeek == 0 then 6 else dayOfWeek - 1
  }

  // ===========================================================================
  // Today's list

  datatype Customer = Customer(firstName: Option<string>, lastName: Option<string>)

  /** The start time as Carbon reads it. */
  datatype ClockTime = ClockTime(hour: Hour, minute: Minute)

  /** One of today's non-cancelled appointments, with customer and service. */
  datatype TodayAppointment = TodayAppointment(
    id: int,
    customer: Option<Customer>,
    serviceName: Option<string>,
    startTime: Option<ClockTime>,
    status: Option<Status>)

  datatype UpcomingTodayItem = UpcomingTodayItem(
    id: int, customer: string, initials: string, service: string, time: string, status: Status)

  /** `` `${first} ${last}`.trim() || "Customer" ``. */
  function CustomerName(first: string, last: string): string {
    var fullName := Trim(first + " " + last);
    if fullName != "" then fullName else "Customer"
  }

  /** `mapUpcomingToday(apt)`. */
  function MapUpcomingToday(apt: TodayAppointment): UpcomingTodayItem {
    var cust := apt.customer.GetOr(Customer(None, None));
    var first := cust.firstName.GetOr("");
    var last := cust.lastName.GetOr("");
    UpcomingTodayItem(
      apt.id,
      CustomerName(first, last),
      GetInitials(Some(first), Some(last)),
      apt.serviceName.GetOr("—"),
      if apt.startTime.Some? then FormatTime(apt.startTime.value.hour, apt.startTime.value.minute) else "—",
      apt.status.GetOr(Pending))
  }

  /** The customer's display name: "Customer" when both names are blank or
      missing, and otherwise the trimmed full name; the initials are then "?"
      and otherwise the first non-blank character of each name. */
  lemma CustomerFallback(first: string, last: string)
    ensures AllSpace(first) && AllSpace(last) ==>
      CustomerName(first, last) == "Customer" && GetInitials(Some(first), Some(last)) == "?"
    ensures !(AllSpace(first) && AllSpace(last)) ==>
      && CustomerName(first, last) == Trim(first + " " + last) && CustomerName(first, last) != ""
      && GetInitials(Some(first), Some(last)) == ToUpper(FirstNonBlank(first)) + ToUpper(FirstNonBlank(last))
  {
    TrimmedStart(first + " " + last);
    SpaceJoined(first, last);
    GetInitialsSpec(Some(first), Some(last));
  }

  /** "first last" is all white space exactly when both names are. */
  lemma SpaceJoined(first: string, last: string)
    ensures AllSpace(first + " " + last) <==> AllSpace(first) && AllSpace(last)
  {
    var full := first + " " + last;
    if AllSpace(full) {
      forall i | 0 <= i < |first| ensures IsJsSpace(first[i]) { assert full[i] == first[i]; }
      forall i | 0 <= i < |last| ensures IsJsSpace(last[i]) { assert full[|first| + 1 + i] == last[i]; }
    }
    if AllSpace(first) && AllSpace(last) {
      forall i | 0 <= i < |full| ensures IsJsSpace(full[i]) {
        if i < |first| { assert full[i] == first[i]; }
        else if i > |first| { assert full[i] == last[i - |first| - 1]; }
      }
    }
  }

  /** The other fallbacks of an "upcoming today" row: "—" for a missing
      service or start time, "pending" for a missing status; a present start
      time is shown as a `formatTime` text that reads back as that time. */
  lemma UpcomingTodayFallbacks(apt: TodayAppointment)
    ensures var item := MapUpcomingToday(apt);
      && item.id == apt.id
      && item.service == apt.serviceName.GetOr("—")
      && item.status == apt.status.GetOr(Pending)
      && (apt.startTime.None? <==> item.time == "—")
      && (apt.startTime.Some? ==>
            DecodeTime(item.time) == Some((apt.startTime.value.hour, apt.startTime.value.minute)))
  {
    if apt.startTime.Some? {
      var t := apt.startTime.value;
      FormatTimeRoundTrip(t.hour, t.minute);
      FormatTimeParts(t.hour, t.minute);
      assert |FormatTime(t.hour, t.minute)| >= 7;
    }
  }

  // ===========================================================================
  // Today's counts and the completion rate

  /** How many of the appointments have the given status. */
  function CountStatus(apts: seq<TodayAppointment>, s: Status): nat {
    if apts == [] then 0
    else CountStatus(apts[..|apts| - 1], s) + (if apts[|apts| - 1].status == Some(s) then 1 else 0)
  }

  /** The confirmed and the pending appointments of a list together never
      outnumber the list. */
  lemma {:induction false} CountsWithinTotal(apts: seq<TodayAppointment>)
    ensures CountStatus(apts, Confirmed) + CountStatus(apts, Pending) <= |apts|
  {
    if apts != [] {
      CountsWithinTotal(apts[..|apts| - 1]);
    }
  }

  /** `Math.round(x)` for x = num / den: the nearest integer, halves rounded up. */
  function RoundQuotient(num: int, den: int): int
    requires den > 0
  {
    (2 * num + den) / (2 * den)
  }

  /** `completionRate`: zero without appointments in the last 30 days, and
      otherwise the completed share as a whole percentage. */
  function CompletionRate(last30Total: nat, last30Completed: nat): (r: int)
    ensures last30Total == 0 ==> r == 0
    ensures last30Completed <= last30Total ==> 0 <= r <= 100
    ensures last30Total > 0 && last30Completed == last30Total ==> r == 100
  {
    if last30Total > 0 then
      var num, den := last30Completed * 100, last30Total;
      RoundQuotientPercent(num, den);
      RoundQuotient(num, den)
    else 0
  }

  /** A share of at most the whole rounds to a percentage from 0 to 100. */
  lemma RoundQuotientPercent(num: int, den: int)
    requires den > 0 && 0 <= num
    ensures num <= 100 * den ==> 0 <= RoundQuotient(num, den) <= 100
    ensures num == 100 * den ==> RoundQuotient(num, den) == 100
  {
    var x, d := 2 * num + den, 2 * den;
    var q := x / d;
    DivBounds(x, d, 0);
    if num <= 100 * den {
      DivBounds(x, d, 101);
    }
    if num == 100 * den {
      assert 100 * d <= x;
      DivBounds(x, d, 100);
    }
  }

  /** Floor division against a bound: `k <= x / d` exactly when `k * d <= x`. */
  lemma DivBounds(x: int, d: int, k: int)
    requires d > 0
    ensures k * d <= x <==> k <= x / d
  {
    var q, r := x / d, x % d;
    assert x == q * d + r && 0 <= r < d;
    if k <= q {
      MulMono(k, q, d);
    } else {
      MulMono(q + 1, k, d);
    }
  }

  lemma MulMono(a: int, b: int, d: int)
    requires a <= b && d >= 0
    ensures a * d <= b * d
  {
    assert b * d - a * d == (b - a) * d;
  }

  datatype DashboardStats = DashboardStats(
    todayAppointments: nat,
    todayConfirmed: nat,
    todayPending: nat,
    upcomingThisWeek: nat,
    totalCustomers: nat,
    customersNewThisMonth: nat,
    completionRate: int,
    todayAppointmentsPercent: string,
    upcomingPercent: string,
    customersPercent: string,
    completionPercent: string,
    completionLabel: string)

  // ===========================================================================
  // The weekly overview

  /** The fields of a start time the weekly overview uses: its day index in
      the week (`diffInDays` from Monday), hour and minute. */
  datatype WeekStart = WeekStart(dayIndex: int, hour: Hour, minute: Minute)

  datatype WeekAppointment = WeekAppointment(start: Option<WeekStart>, serviceName: Option<string>)

  datatype WeeklyAppointmentItem = WeeklyAppointmentItem(dayIndex: int, time: string, service: string)

  /** An appointment has a place in the week grid when it has a start time
      whose day index is 0 to 6. */
  predicate OnWeekGrid(apt: WeekAppointment) {
    apt.start.Some? && 0 <= apt.start.value.dayIndex <= 6
  }

  /** A 24-hour "H:MM" text whose hour and minute read back as h and m. */
  predicate ClockTextReads(t: string, h: nat, m: nat) {
    |t| >= 4 && t[|t| - 3] == ':'
    && ParseNat(t[..|t| - 3]) == Some(h) && ParseNat(t[|t| - 2..]) == Some(m)
  }

  /** The grid's time text reads back as the hour and the minute. */
  lemma ClockText(h: Hour, m: Minute)
    ensures ClockTextReads(NatToString(h) + ":" + MinuteText(m), h, m)
  {
    var hourText := NatToString(h);
    var t := hourText + ":" + MinuteText(m);
    ParseNatToString(h);
    assert t[..|t| - 3] == hourText;
    assert t[|t| - 2..] == MinuteText(m);
  }

  /** The grid item of an appointment: its day, its time as "9:05" (24-hour,
      two-digit minutes) and its service name or "—". */
  function WeeklyItem(apt: WeekAppointment): (item: WeeklyAppointmentItem)
    requires OnWeekGrid(apt)
    ensures 0 <= item.dayIndex <= 6 && item.dayIndex == apt.start.value.dayIndex
    ensures ClockTextReads(item.time, apt.start.value.hour, apt.start.value.minute)
  {
    var start := apt.start.value;
    var t := NatToString(start.hour) + ":" + MinuteText(start.minute);
    ClockText(start.hour, start.minute);
    WeeklyAppointmentItem(
      start.dayIndex,
      t,
      apt.serviceName.GetOr("—"))
  }

  /** The grid items of the appointments that have a place, in order. */
  function WeeklyItems(apts: seq<WeekAppointment>): seq<WeeklyAppointmentItem> {
    if apts == [] then []
    else
      var last := apts[|apts| - 1];
      WeeklyItems(apts[..|apts| - 1]) + (if OnWeekGrid(last) then [WeeklyItem(last)] else [])
  }

  /** `mapWeeklyAppointments(appointments, weekStart)`. */
  method MapWeeklyAppointments(apts: seq<WeekAppointment>) returns (result: seq<WeeklyAppointmentItem>)
    ensures result == WeeklyItems(apts)
  {
    result := [];
    for i := 0 to |apts|
      invariant result == WeeklyItems(apts[..i])
    {
      assert apts[..i + 1][..i] == apts[..i];
      var apt := apts[i];
      if apt.start.None? {
        continue;
      }
      var dayIndex := apt.start.value.dayIndex;
      if 0 <= dayIndex && dayIndex <= 6 {
        var h := apt.start.value.hour;
        var m := apt.start.value.minute;
        var time := NatToString(h) + ":" + (if m == 0 then "00" else PadStart2(NatToString(m)));
        var serviceName := apt.serviceName.GetOr("—");
        result := result + [WeeklyAppointmentItem(dayIndex, time, serviceName)];
      }
    }
    assert apts[..|apts|] == apts;
  }

  /** The weekly overview keeps the appointments in their order: the items of
      two runs of appointments are the items of the first, then of the second. */
  lemma {:induction false} WeeklyItemsAppend(a: seq<WeekAppointment>, b: seq<WeekAppointment>)
    ensures WeeklyItems(a + b) == WeeklyItems(a) + WeeklyItems(b)
    decreases |b|
  {
    if b != [] {
      assert (a + b)[..|a + b| - 1] == a + b[..|b| - 1];
      WeeklyItemsAppend(a, b[..|b| - 1]);
    } else {
      assert a + b == a;
    }
  }

  /** The weekly overview is no longer than its input, every item sits on a
      day 0 to 6, every item comes from an appointment with a place in the
      grid, and every such appointment yields an item. */
  lemma WeeklyItemsSpec(apts: seq<WeekAppointment>)
    ensures |WeeklyItems(apts)| <= |apts|
    ensures forall item :: item in WeeklyItems(apts) ==> 0 <= item.dayIndex <= 6
    ensures forall item :: item in WeeklyItems(apts) ==>
      exists apt :: apt in apts && OnWeekGrid(apt) && item == WeeklyItem(apt)
    ensures forall apt :: apt in apts && OnWeekGrid(apt) ==> WeeklyItem(apt) in WeeklyItems(apts)
  {
    WeeklyItemsFrom(apts);
    WeeklyItemsCover(apts);
  }

  /** Every item comes from an appointment on the grid; so there are no more
      items than appointments. */
  lemma {:induction false} WeeklyItemsFrom(apts: seq<WeekAppointment>)
    ensures |WeeklyItems(apts)| <= |apts|
    ensures forall item :: item in WeeklyItems(apts) ==>
      exists apt :: apt in apts && OnWeekGrid(apt) && item == WeeklyItem(apt)
  {
    if apts != [] {
      var init, last := apts[..|apts| - 1], apts[|apts| - 1];
      WeeklyItemsFrom(init);
      var tail := if OnWeekGrid(last) then [WeeklyItem(last)] else [];
      assert WeeklyItems(apts) == WeeklyItems(init) + tail;
      forall item | item in WeeklyItems(apts)
        ensures exists apt :: apt in apts && OnWeekGrid(apt) && item == WeeklyItem(apt)
      {
        if item in WeeklyItems(init) {
          var apt :| apt in init && OnWeekGrid(apt) && item == WeeklyItem(apt);
          assert apt in apts;
        } else {
          assert item in tail;
          assert last in apts;
        }
      }
    }
  }

  /** Every appointment on the grid yields its item. */
  lemma {:induction false} WeeklyItemsCover(apts: seq<WeekAppointment>)
    ensures forall apt :: apt in apts && OnWeekGrid(apt) ==> WeeklyItem(apt) in WeeklyItems(apts)
  {
    if apts != [] {
      var init, last := apts[..|apts| - 1], apts[|apts| - 1];
      WeeklyItemsCover(init);
      assert apts == init + [last];
      forall apt | apt in apts && OnWeekGrid(apt) ensures WeeklyItem(apt) in WeeklyItems(apts) {
        if apt != last {
          assert apt in init;
        }
      }
    }
  }

  // ===========================================================================
  // getDashboardData

  datatype DashboardData = DashboardData(
    stats: DashboardStats,
    upcomingToday: seq<UpcomingTodayItem>,
    weeklyAppointments: seq<WeeklyAppointmentItem>)

  /** `getDashboardData`, from the rows and counts its queries return:
      today's non-cancelled appointments, this week's non-cancelled
      appointments, and the four counts. */
  method GetDashboardData(
    todayList: seq<TodayAppointment>,
    weekList: seq<WeekAppointment>,
    totalCustomers: nat,
    customersNewThisMonth: nat,
    last30Total: nat,
    last30Completed: nat)
    returns (data: DashboardData)
    ensures data.stats.todayAppointments == |todayList|
    ensures data.stats.todayConfirmed == CountStatus(todayList, Confirmed)
    ensures data.stats.todayPending == CountStatus(todayList, Pending)
    ensures data.stats.todayConfirmed + data.stats.todayPending <= data.stats.todayAppointments
    ensures data.stats.upcomingThisWeek == |weekList|
    ensures data.stats.totalCustomers == totalCustomers
    ensures data.stats.customersNewThisMonth == customersNewThisMonth
    ensures data.stats.completionRate == CompletionRate(last30Total, last30Completed)
    ensures last30Total == 0 ==> data.stats.completionRate == 0
    ensures data.stats.completionLabel == "Last 30 days"
    ensures |data.upcomingToday| == |todayList|
    ensures forall i :: 0 <= i < |todayList| ==> data.upcomingToday[i] == MapUpcomingToday(todayList[i])
    ensures data.weeklyAppointments == WeeklyItems(weekList)
  {
    var todayTotal := |todayList|;
    var todayConfirmed := CountStatus(todayList, Confirmed);
    var todayPending := CountStatus(todayList, Pending);
    CountsWithinTotal(todayList);
    var weekTotal := |weekList|;
    var completionRate := CompletionRate(last30Total, last30Completed);
    var upcomingToday := seq(|todayList|, i requires 0 <= i < |todayList| => MapUpcomingToday(todayList[i]));
    var weeklyAppointments := MapWeeklyAppointments(weekList);
    var stats := DashboardStats(
      todayTotal, todayConfirmed, todayPending, weekTotal, totalCustomers, customersNewThisMonth,
      completionRate, "+0%", "+0%", "+0%", "+0%", "Last 30 days");
    data := DashboardData(stats, upcomingToday, weeklyAppointments);
  }
}
