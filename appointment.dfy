/**
 * The `Appointment` model: its stored attributes and the three getters that
 * classify an appointment against the current time. Times are instants in
 * integer milliseconds (what `Date.getTime()` returns); the clock reading
 * `now` is a parameter.
 */
module Appointments {
  import opened Wrappers

  /** The `status` column: an enum of five values. */
  datatype Status = Pending | Confirmed | Completed | Cancelled | NoShow

  /** The stored attributes of one appointment row. */
  datatype Attributes = Attributes(
    id: int,
    businessId: int,
    serviceId: int,
    staffId: Option<int>,
    customerId: int,
    startTime: int,
    endTime: int,
    status: Status,
    notes: Option<string>,
    cancellationReason: Option<string>,
    price: Option<int>,
    bookingSource: string)

  /** One hour and one day in milliseconds. */
  const HOUR_MS: int := 1000 * 60 * 60
  const DAY_MS: int := 24 * HOUR_MS

  /** An appointment object; `update` writes its attributes in place. */
  class Appointment {
    var attributes: Attributes

    constructor (attributes: Attributes)
      ensures this.attributes == attributes
    {
      this.attributes := attributes;
    }

    /** `isUpcoming`: starts strictly after now and is not cancelled. */
    predicate IsUpcoming(now: int)
      reads this
    {
      attributes.startTime > now && attributes.status != Cancelled
    }

    /** `isPast`: ended strictly before now, whatever the status. */
    predicate IsPast(now: int)
      reads this
    {
      attributes.endTime < now
    }

    /** `canBeCancelled`: pending or confirmed, and more than 24 hours before
        the start (`hoursUntilStart > 24`; at exactly 24 hours it is false).
        A cancellable appointment is upcoming, and a completed, cancelled or
        no-show appointment is never cancellable. */
    predicate CanBeCancelled(now: int)
      reads this
      ensures CanBeCancelled(now) ==> IsUpcoming(now)
      ensures attributes.status in {Completed, Cancelled, NoShow} ==> !CanBeCancelled(now)
    {
      (attributes.status == Pending || attributes.status == Confirmed)
      && attributes.startTime - now > DAY_MS
    }
  }

  /** Cancellation eligibility only gets lost as time passes: if an
      appointment can be cancelled now, it could be at any earlier moment. */
  lemma CancellableEarlier(a: Appointment, now: int, earlier: int)
    requires earlier <= now && a.CanBeCancelled(now)
    ensures a.CanBeCancelled(earlier)
  {
  }

  /** The 24-hour boundary: cancellable one millisecond past 24 hours before
      the start, not at exactly 24 hours. */
  lemma CancellationBoundary(a: Appointment, now: int)
    requires a.attributes.status == Pending || a.attributes.status == Confirmed
    ensures a.CanBeCancelled(now) <==> now < a.attributes.startTime - DAY_MS
    ensures !a.CanBeCancelled(a.attributes.startTime - DAY_MS)
    ensures a.CanBeCancelled(a.attributes.startTime - DAY_MS - 1)
  {
  }

  /** An appointment that does not end before it starts is never both
      upcoming and past. */
  lemma NotUpcomingAndPast(a: Appointment, now: int)
    requires a.attributes.startTime <= a.attributes.endTime
    ensures !(a.IsUpcoming(now) && a.IsPast(now))
  {
  }
}
