/** An event card: whether the event is full, over, or the viewer's own, the
    join button's rule and label, and the join handler. */
module EventCard {
  import opened Outcomes
  import Backend

  const JoinFallback: string := "Failed to join event"

  /** `isFull`: no seat is left once the count has reached the cap. */
  function IsFull(currentParticipants: int, maxParticipants: int): (full: bool)
    ensures !full <==> currentParticipants < maxParticipants
  {
    currentParticipants >= maxParticipants
  }

  /** `isPast`: the event's date, in milliseconds, is strictly before now. A
      date string that does not parse is `None`; it compares as NaN, so such
      an event is never past. */
  function IsPast(date: Option<int>, now: int): (past: bool)
    ensures date.None? ==> !past
    ensures date.Some? ==> (past <==> date.value < now)
  {
    date.Some? && date.value < now
  }

  /** `event.user_id === currentUserId`: with no viewer the comparison is with
      `undefined` and fails. */
  function OwnEvent(ownerId: string, currentUser: Option<string>): (own: bool)
    ensures currentUser.None? ==> !own
    ensures currentUser.Some? ==> (own <==> currentUser.value == ownerId)
  {
    currentUser == Some(ownerId)
  }

  /** The join button's `disabled` rule. */
  function JoinDisabled(loading: bool, full: bool, past: bool, own: bool): (disabled: bool)
    ensures !disabled <==> !loading && !full && !past && !own
  {
    loading || full || past || own
  }

  /** What the join button says. */
  datatype JoinLabel = Joining | YourEvent | EventEnded | EventFull | JoinEvent

  /** The label, by priority: loading, then ownership, then past, then full. */
  function Label(loading: bool, full: bool, past: bool, own: bool): (shown: JoinLabel)
    ensures shown == Joining <==> loading
    ensures shown == YourEvent <==> !loading && own
    ensures shown == EventEnded <==> !loading && !own && past
    ensures shown == EventFull <==> !loading && !own && !past && full
  {
    if loading then Joining
    else if own then YourEvent
    else if past then EventEnded
    else if full then EventFull
    else JoinEvent
  }

  /** The label reads "Join Event" exactly when the button can be pressed. */
  lemma LabelMatchesButton(loading: bool, full: bool, past: bool, own: bool)
    ensures Label(loading, full, past, own) == JoinEvent <==> !JoinDisabled(loading, full, past, own)
  {
  }

  /** An event that is both full and over says it has ended. */
  lemma EndedBeforeFull(date: Option<int>, now: int, current: int, max: int, ownerId: string, viewer: Option<string>)
    requires IsPast(date, now) && IsFull(current, max) && !OwnEvent(ownerId, viewer)
    ensures Label(false, IsFull(current, max), IsPast(date, now), OwnEvent(ownerId, viewer)) == EventEnded
  {
  }

  /** The state of one rendered event card. */
  class Card {
    const eventId: string
    const ownerId: string
    const maxParticipants: int
    const currentParticipants: int
    const date: Option<int>
    const currentUser: Option<string>
    var loading: bool
    var error: Option<string>

    constructor (eventId: string, ownerId: string, maxParticipants: int, currentParticipants: int,
                 date: Option<int>, currentUser: Option<string>)
      ensures this.eventId == eventId && this.ownerId == ownerId
      ensures this.maxParticipants == maxParticipants && this.currentParticipants == currentParticipants
      ensures this.date == date && this.currentUser == currentUser
      ensures !loading && error.None?
    {
      this.eventId, this.ownerId := eventId, ownerId;
      this.maxParticipants, this.currentParticipants := maxParticipants, currentParticipants;
      this.date, this.currentUser := date, currentUser;
      loading, error := false, None;
    }

    /** The part of `handleJoin` before the insert. */
    method BeginJoin()
      modifies this`loading, this`error
      ensures loading && error.None?
    {
      loading := true;
      error := None;
    }

    /** The part of `handleJoin` after the insert: the participation row is
        stored, or the error is shown; loading ends either way. */
    method FinishJoin(db: Backend.Database, user: string, insertError: Option<Thrown>)
      returns (updated: bool)
      modifies this`loading, this`error, db`eventParticipants
      ensures !loading
      ensures updated <==> insertError.None?
      ensures insertError.None? ==>
                error == old(error) && db.eventParticipants == old(db.eventParticipants) + [Backend.EventParticipant(eventId, user)]
      ensures insertError.Some? ==>
                error == Some(MessageOr(insertError.value, JoinFallback)) && db.eventParticipants == old(db.eventParticipants)
    {
      if insertError.None? {
        db.eventParticipants := db.eventParticipants + [Backend.EventParticipant(eventId, user)];
        updated := true;
      } else {
        error := Some(MessageOr(insertError.value, JoinFallback));
        updated := false;
      }
      loading := false;
    }

    /** `handleJoin`: returns whether `onUpdate` was called. Without a viewer
        nothing happens; otherwise the handler does not look at fullness, date
        or ownership again, which only the button checks. */
    method HandleJoin(db: Backend.Database, insertError: Option<Thrown>)
      returns (updated: bool)
      modifies this`loading, this`error, db`eventParticipants
      ensures currentUser.None? ==> !updated && unchanged(this) && db.eventParticipants == old(db.eventParticipants)
      ensures currentUser.Some? ==> !loading && (updated <==> insertError.None?)
      ensures currentUser.Some? && insertError.None? ==>
                && error.None?
                && db.eventParticipants == old(db.eventParticipants) + [Backend.EventParticipant(eventId, currentUser.value)]
      ensures currentUser.Some? && insertError.Some? ==>
                && error == Some(MessageOr(insertError.value, JoinFallback))
                && db.eventParticipants == old(db.eventParticipants)
    {
      if currentUser.None? {
        return false;
      }
      BeginJoin();
      updated := FinishJoin(db, currentUser.value, insertError);
    }
  }
}
