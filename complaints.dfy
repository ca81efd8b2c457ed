/** Escalating a complaint to the local authority: read the complaint, obtain
    the user's position, then mark the complaint as forwarded. Every failure is
    turned into an error result; nothing is written unless every step succeeds. */
module Complaints {
  import opened Outcomes
  import Backend

  const ComplaintNotFound: string := "Complaint not found"
  const GeolocationUnsupported: string := "Geolocation is not supported by your browser"
  const RedirectFallback: string := "Failed to redirect to authority"
  const ForwardedUpdate: string := "Complaint forwarded to local waste management authority"

  /** How `getCurrentPosition` settles: rejected with an `Error` because the
      browser has no geolocation, rejected with the browser's position error
      (which is not an `Error` instance), or resolved with a position. */
  datatype Geolocation = Unsupported | PositionError | Position(coords: Backend.Coordinates)

  /** `{ success: true }` or `{ error }`. */
  datatype AuthorityRedirectResult = Redirected | RedirectError(message: string)

  /** The complaint as the update leaves it: notified, pending, located and
      with one update line; every other column is kept. */
  function Escalated(c: Backend.Complaint, location: Backend.Coordinates): (e: Backend.Complaint)
    ensures e.authorityNotified == Some(true) && e.authorityStatus == Some(Backend.Pending)
    ensures e.authorityLocation == Some(location) && e.authorityUpdates == Some([ForwardedUpdate])
    ensures e.(authorityNotified := c.authorityNotified, authorityStatus := c.authorityStatus,
               authorityLocation := c.authorityLocation, authorityUpdates := c.authorityUpdates) == c
  {
    c.(authorityNotified := Some(true), authorityStatus := Some(Backend.Pending),
       authorityLocation := Some(location), authorityUpdates := Some([ForwardedUpdate]))
  }

  /** Nothing guards against escalating twice: a second escalation from the
      same position leaves the complaint as the first one did. */
  lemma EscalateTwice(c: Backend.Complaint, location: Backend.Coordinates)
    ensures Escalated(Escalated(c, location), location) == Escalated(c, location)
  {
  }

  /** What `redirectToAuthority` returns, given the complaints table and the
      outcome of each step. The steps run in order and the first failure wins. */
  function RedirectOutcome(complaints: map<string, Backend.Complaint>, complaintId: string,
                           fetchError: Option<Thrown>, geo: Geolocation, updateError: Option<Thrown>)
    : (r: AuthorityRedirectResult)
    ensures r.Redirected? <==> fetchError.None? && complaintId in complaints && geo.Position? && updateError.None?
    ensures fetchError.Some? ==> r == RedirectError(MessageOr(fetchError.value, RedirectFallback))
    ensures fetchError.None? && complaintId !in complaints ==> r == RedirectError(ComplaintNotFound)
    ensures fetchError.None? && complaintId in complaints && geo.Unsupported? ==> r == RedirectError(GeolocationUnsupported)
    ensures fetchError.None? && complaintId in complaints && geo.PositionError? ==> r == RedirectError(RedirectFallback)
    ensures fetchError.None? && complaintId in complaints && geo.Position? && updateError.Some?
            ==> r == RedirectError(MessageOr(updateError.value, RedirectFallback))
  {
    if fetchError.Some? then RedirectError(MessageOr(fetchError.value, RedirectFallback))
    else if complaintId !in complaints then RedirectError(ComplaintNotFound)
    else match geo
      case Unsupported => RedirectError(MessageOr(ErrorObject(GeolocationUnsupported), RedirectFallback))
      case PositionError => RedirectError(MessageOr(NonErrorValue, RedirectFallback))
      case Position(_) =>
        if updateError.Some? then RedirectError(MessageOr(updateError.value, RedirectFallback))
        else Redirected
  }

  /** `redirectToAuthority`: it never throws, and it changes exactly the given
      complaint, and only when every step succeeds. */
  method RedirectToAuthority(db: Backend.Database, complaintId: string,
                             fetchError: Option<Thrown>, geo: Geolocation, updateError: Option<Thrown>)
    returns (r: AuthorityRedirectResult)
    modifies db`complaints
    ensures r == RedirectOutcome(old(db.complaints), complaintId, fetchError, geo, updateError)
    ensures r.Redirected? ==> db.complaints == old(db.complaints)[complaintId := Escalated(old(db.complaints)[complaintId], geo.coords)]
    ensures r.RedirectError? ==> db.complaints == old(db.complaints)
  {
    if fetchError.Some? {
      return RedirectError(MessageOr(fetchError.value, RedirectFallback));
    }
    if complaintId !in db.complaints {
      return RedirectError(MessageOr(ErrorObject(ComplaintNotFound), RedirectFallback));
    }
    var complaint := db.complaints[complaintId];
    var position: Backend.Coordinates;
    match geo {
      case Unsupported =>
        return RedirectError(MessageOr(ErrorObject(GeolocationUnsupported), RedirectFallback));
      case PositionError =>
        return RedirectError(MessageOr(NonErrorValue, RedirectFallback));
      case Position(coords) =>
        position := Backend.Coordinates(coords.latitude, coords.longitude, coords.accuracy);
    }
    if updateError.Some? {
      return RedirectError(MessageOr(updateError.value, RedirectFallback));
    }
    db.complaints := db.complaints[complaintId := Escalated(complaint, position)];
    return Redirected;
  }
}
