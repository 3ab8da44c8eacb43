/**
 * The two status actions of the appointments controller. Each writes its
 * fields unconditionally: there is no eligibility check and no guard on the
 * prior status.
 */
module AppointmentsController {
  import opened Wrappers
  import opened Appointments

  /** `request().body.cancellation_reason || ""`: a missing or empty reason
      becomes the empty string. */
  function ReasonOrEmpty(reason: Option<string>): (r: string)
    ensures reason.Some? && reason.value != "" ==> r == reason.value
    ensures reason.None? || reason == Some("") ==> r == ""
  {
    if reason.Some? then reason.value else ""
  }

  /** The attributes after `cancel`: status "cancelled" and the reason; every
      other attribute as before. */
  function CancelledAttributes(a: Attributes, reason: Option<string>): (r: Attributes)
    ensures r.status == Cancelled && r.cancellationReason == Some(ReasonOrEmpty(reason))
    ensures r.(status := a.status, cancellationReason := a.cancellationReason) == a
  {
    a.(status := Cancelled, cancellationReason := Some(ReasonOrEmpty(reason)))
  }

  /** The attributes after `confirm`: status "confirmed"; every other
      attribute, the cancellation reason included, as before. */
  function ConfirmedAttributes(a: Attributes): (r: Attributes)
    ensures r.status == Confirmed
    ensures r.(status := a.status) == a
  {
    a.(status := Confirmed)
  }

  /** `cancel(appointment)`. */
  method Cancel(appointment: Appointment, reason: Option<string>)
    modifies appointment
    ensures appointment.attributes == CancelledAttributes(old(appointment.attributes), reason)
  {
    var cancellationReason := ReasonOrEmpty(reason);
    appointment.attributes := appointment.attributes.(
      status := Cancelled, cancellationReason := Some(cancellationReason));
  }

  /** `confirm(appointment)`. */
  method Confirm(appointment: Appointment)
    modifies appointment
    ensures appointment.attributes == ConfirmedAttributes(old(appointment.attributes))
  {
    appointment.attributes := appointment.attributes.(status := Confirmed);
  }

  /** Cancelling twice with the same request is cancelling once, and
      confirming twice is confirming once. */
  lemma TransitionsIdempotent(a: Attributes, reason: Option<string>)
    ensures CancelledAttributes(CancelledAttributes(a, reason), reason) == CancelledAttributes(a, reason)
    ensures ConfirmedAttributes(ConfirmedAttributes(a)) == ConfirmedAttributes(a)
  {
  }

  /** Neither action looks at the prior status: two appointments that differ
      only in status (and, for cancel, in reason) end up identical. In
      particular `cancel` ignores the 24-hour rule, and `confirm` revives a
      cancelled appointment while keeping its cancellation reason. */
  lemma TransitionsIgnorePriorStatus(a: Attributes, s: Status, priorReason: Option<string>, reason: Option<string>)
    ensures CancelledAttributes(a.(status := s, cancellationReason := priorReason), reason)
            == CancelledAttributes(a, reason)
    ensures ConfirmedAttributes(a.(status := s)) == ConfirmedAttributes(a)
    ensures a.status == Cancelled ==>
      ConfirmedAttributes(a).status == Confirmed
      && ConfirmedAttributes(a).cancellationReason == a.cancellationReason
  {
  }
}
