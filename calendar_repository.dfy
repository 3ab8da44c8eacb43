/**
 * The calendar month view's grouping: the month's appointments, already
 * fetched in start-time order, are collected into a dictionary from date key
 * to the day's items, and the first item of every day then carries the day's
 * count as its badge. The query, and the date key Carbon derives from each
 * start time, are inputs.
 */
module CalendarRepository {
  import opened Wrappers

  /** A row of the month query: the date key (`toDateString()`) of its start
      time when it has one, and its service's name when the service has one. */
  datatype MonthAppointment = MonthAppointment(dateKey: Option<string>, serviceName: Option<string>)

  /** `CalendarDayAppointment`: a service name and an optional badge. */
  datatype DayAppointment = DayAppointment(service: string, badge: Option<int>)

  /** `AppointmentsByDate`. */
  type ByDate = map<string, seq<DayAppointment>>

  datatype CalendarMonthData = CalendarMonthData(
    year: int, month: int, monthLabel: string, appointmentsByDate: ByDate)

  /** The item pushed for an appointment: its service name, or "—". */
  function DayItem(apt: MonthAppointment): DayAppointment {
    DayAppointment(apt.serviceName.GetOr("—"), None)
  }

  /** The items of the appointments on day `key`, in input order. */
  function ItemsOn(apts: seq<MonthAppointment>, key: string): (r: seq<DayAppointment>)
    ensures |r| <= |apts|
  {
    if apts == [] then []
    else
      var last := apts[|apts| - 1];
      ItemsOn(apts[..|apts| - 1], key) + (if last.dateKey == Some(key) then [DayItem(last)] else [])
  }

  /** The days on which some appointment starts. */
  function DateKeys(apts: seq<MonthAppointment>): set<string> {
    set apt | apt in apts && apt.dateKey.Some? :: apt.dateKey.value
  }

  /** The dictionary the first loop builds. */
  function Grouped(apts: seq<MonthAppointment>): ByDate {
    map key | key in DateKeys(apts) :: ItemsOn(apts, key)
  }

  /** One more appointment adds its item at the end of its day's list. */
  lemma GroupedStep(apts: seq<MonthAppointment>, apt: MonthAppointment)
    ensures apt.dateKey.None? ==> Grouped(apts + [apt]) == Grouped(apts)
    ensures apt.dateKey.Some? ==>
      var key := apt.dateKey.value;
      Grouped(apts + [apt]) ==
        Grouped(apts)[key := (if key in Grouped(apts) then Grouped(apts)[key] else []) + [DayItem(apt)]]
  {
    var next := apts + [apt];
    assert next[..|next| - 1] == apts;
    assert DateKeys(next) == DateKeys(apts) + (if apt.dateKey.Some? then {apt.dateKey.value} else {}) by {
      forall k | k in DateKeys(next)
        ensures k in DateKeys(apts) || apt.dateKey == Some(k)
      {
        var a :| a in next && a.dateKey.Some? && a.dateKey.value == k;
        if a != apt {
          assert a in apts;
        }
      }
      forall k | k in DateKeys(apts) ensures k in DateKeys(next) {
        var a :| a in apts && a.dateKey.Some? && a.dateKey.value == k;
        assert a in next;
      }
      if apt.dateKey.Some? {
        assert apt in next;
      }
    }
    forall key | key in DateKeys(next) && apt.dateKey != Some(key)
      ensures Grouped(next)[key] == Grouped(apts)[key]
    {
    }
    if apt.dateKey.Some? {
      var key := apt.dateKey.value;
      if key !in DateKeys(apts) {
        ItemsOnAbsent(apts, key);
      }
      assert Grouped(next)[key] == (if key in Grouped(apts) then Grouped(apts)[key] else []) + [DayItem(apt)];
    }
  }

  /** A day without appointments has no items. */
  lemma {:induction false} ItemsOnAbsent(apts: seq<MonthAppointment>, key: string)
    requires key !in DateKeys(apts)
    ensures ItemsOn(apts, key) == []
  {
    if apts != [] {
      var init := apts[..|apts| - 1];
      assert DateKeys(init) <= DateKeys(apts) by {
        forall k | k in DateKeys(init) ensures k in DateKeys(apts) {
          var apt :| apt in init && apt.dateKey.Some? && apt.dateKey.value == k;
          assert apt in apts;
        }
      }
      ItemsOnAbsent(init, key);
      assert apts[|apts| - 1] in apts;
    }
  }

  /** The first loop of `getAppointmentsForMonth`: appointments without a
      start time are skipped; every other one is pushed onto its day's list,
      which is created on first use. */
  method GroupByDate(apts: seq<MonthAppointment>) returns (byDate: ByDate)
    ensures byDate == Grouped(apts)
  {
    byDate := map[];
    for i := 0 to |apts|
      invariant byDate == Grouped(apts[..i])
    {
      var apt := apts[i];
      assert apts[..i + 1] == apts[..i] + [apt];
      GroupedStep(apts[..i], apt);
      if apt.dateKey.None? {
        continue;
      }
      var dateKey := apt.dateKey.value;
      var serviceName := apt.serviceName.GetOr("—");
      if dateKey !in byDate {
        byDate := byDate[dateKey := []];
      }
      byDate := byDate[dateKey := byDate[dateKey] + [DayAppointment(serviceName, None)]];
    }
    assert apts[..|apts|] == apts;
  }

  /** `list[0] = { ...list[0], badge: list.length }` on a non-empty list. */
  function Stamp(list: seq<DayAppointment>): seq<DayAppointment> {
    if |list| > 0 then list[0 := list[0].(badge := Some(|list|))] else list
  }

  /** The dictionary after the second loop. */
  function Stamped(byDate: ByDate): ByDate {
    map key | key in byDate :: Stamp(byDate[key])
  }

  /** The second loop: visits every key once, in whatever order, and stamps
      the badge on the first item of the key's list. */
  method StampBadges(byDate: ByDate) returns (stamped: ByDate)
    ensures stamped == Stamped(byDate)
  {
    stamped := byDate;
    var keys := byDate.Keys;
    while keys != {}
      invariant keys <= byDate.Keys && stamped.Keys == byDate.Keys
      invariant forall key :: key in byDate && key !in keys ==> stamped[key] == Stamp(byDate[key])
      invariant forall key :: key in keys ==> stamped[key] == byDate[key]
      decreases keys
    {
      var dateKey :| dateKey in keys;
      var list := stamped[dateKey];
      if |list| > 0 {
        list := list[0 := list[0].(badge := Some(|list|))];
      }
      stamped := stamped[dateKey := list];
      keys := keys - {dateKey};
    }
  }

  /** `getAppointmentsForMonth(businessId, year, month)`, from the rows its
      query returns and the month label Carbon formats. */
  method GetAppointmentsForMonth(year: int, month: int, monthLabel: string, apts: seq<MonthAppointment>)
    returns (data: CalendarMonthData)
    ensures data.year == year && data.month == month && data.monthLabel == monthLabel
    ensures data.appointmentsByDate == Stamped(Grouped(apts))
  {
    var appointmentsByDate := GroupByDate(apts);
    appointmentsByDate := StampBadges(appointmentsByDate);
    data := CalendarMonthData(year, month, monthLabel, appointmentsByDate);
  }

  // ===========================================================================
  // What the grouping promises

  /** The days present are exactly the days on which some appointment with a
      start time falls, and each day's list is non-empty. */
  lemma {:induction false} GroupedKeys(apts: seq<MonthAppointment>)
    ensures forall key :: key in Grouped(apts) <==> exists apt :: apt in apts && apt.dateKey == Some(key)
    ensures forall key :: key in Grouped(apts) ==> Grouped(apts)[key] != []
  {
    if apts != [] {
      var init, last := apts[..|apts| - 1], apts[|apts| - 1];
      assert apts == init + [last];
      GroupedKeys(init);
      GroupedStep(init, last);
      forall key | key in Grouped(apts) ensures exists apt :: apt in apts && apt.dateKey == Some(key) {
        if key in Grouped(init) {
          var apt :| apt in init && apt.dateKey == Some(key);
          assert apt in apts;
        } else {
          assert last.dateKey == Some(key);
        }
      }
      forall key | exists apt :: apt in apts && apt.dateKey == Some(key) ensures key in Grouped(apts) {
        var apt :| apt in apts && apt.dateKey == Some(key);
        assert key in DateKeys(apts);
      }
    }
  }

  /** Every day's list holds that day's appointments in input order: the
      lists for two runs of appointments are the first run's list followed by
      the second's. */
  lemma {:induction false} ItemsOnAppend(a: seq<MonthAppointment>, b: seq<MonthAppointment>, key: string)
    ensures ItemsOn(a + b, key) == ItemsOn(a, key) + ItemsOn(b, key)
    decreases |b|
  {
    if b == [] {
      assert a + b == a;
    } else {
      assert (a + b)[..|a + b| - 1] == a + b[..|b| - 1];
      ItemsOnAppend(a, b[..|b| - 1], key);
    }
  }

  /** The number of appointments that have a start time. */
  function CountDated(apts: seq<MonthAppointment>): nat {
    if apts == [] then 0
    else CountDated(apts[..|apts| - 1]) + (if apts[|apts| - 1].dateKey.Some? then 1 else 0)
  }

  /** The number of items over all days. */
  ghost function TotalItems(byDate: ByDate): nat
    decreases |byDate|
  {
    if byDate == map[] then 0
    else
      var key :| key in byDate;
      assert |byDate - {key}| < |byDate| by {
        assert (byDate - {key}).Keys == byDate.Keys - {key};
      }
      |byDate[key]| + TotalItems(byDate - {key})
  }

  /** The total may be counted from any day first. */
  lemma {:induction false} TotalItemsRemove(byDate: ByDate, key: string)
    requires key in byDate
    ensures TotalItems(byDate) == |byDate[key]| + TotalItems(byDate - {key})
    decreases |byDate|
  {
    var k :| k in byDate && TotalItems(byDate) == |byDate[k]| + TotalItems(byDate - {k});
    assert (byDate - {k}).Keys == byDate.Keys - {k};
    if k != key {
      var rest := byDate - {k};
      assert key in rest;
      TotalItemsRemove(rest, key);
      assert (rest - {key}).Keys == byDate.Keys - {k} - {key};
      var both := byDate - {key} - {k};
      assert both == rest - {key};
      assert (byDate - {key}).Keys == byDate.Keys - {key};
      assert k in byDate - {key};
      TotalItemsRemove(byDate - {key}, k);
    }
  }

  /** Grouping loses no appointment and invents none: the lists hold as many
      items together as there are appointments with a start time. */
  lemma {:induction false} GroupedTotal(apts: seq<MonthAppointment>)
    ensures TotalItems(Grouped(apts)) == CountDated(apts)
  {
    if apts != [] {
      var init, last := apts[..|apts| - 1], apts[|apts| - 1];
      assert apts == init + [last];
      GroupedTotal(init);
      GroupedStep(init, last);
      if last.dateKey.Some? {
        var key := last.dateKey.value;
        var before := Grouped(init);
        var after := Grouped(apts);
        assert after - {key} == before - {key};
        TotalItemsRemove(after, key);
        if key in before {
          TotalItemsRemove(before, key);
        } else {
          assert before - {key} == before;
        }
      }
    }
  }

  /** After the badge pass every day's list has its original length and
      service names, its first item carries the list's length as badge, and
      no other item carries a badge. */
  lemma MonthBadges(apts: seq<MonthAppointment>, key: string)
    requires key in Stamped(Grouped(apts))
    ensures var list, items := Stamped(Grouped(apts))[key], ItemsOn(apts, key);
      && |list| == |items| > 0
      && list[0].badge == Some(|items|)
      && (forall i :: 1 <= i < |list| ==> list[i].badge.None?)
      && (forall i :: 0 <= i < |list| ==> list[i].service == items[i].service)
  {
    GroupedKeys(apts);
    ItemsUnbadged(apts, key);
  }

  /** Before the badge pass no item has a badge. */
  lemma {:induction false} ItemsUnbadged(apts: seq<MonthAppointment>, key: string)
    ensures forall item :: item in ItemsOn(apts, key) ==> item.badge.None?
  {
    if apts != [] {
      ItemsUnbadged(apts[..|apts| - 1], key);
    }
  }
}
