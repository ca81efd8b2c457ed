/** A complaint card: the upvote button with its optimistic update and
    rollback, the realtime refresh of the count, the offer to escalate, and the
    display rules for status badges and evidence media. */
module ComplaintCard {
  import opened Outcomes
  import opened Text
  import Backend
  import Complaints

  /** The number of upvotes from which escalation is offered. */
  const EscalationThreshold: int := 15

  const UpvoteFallback: string := "Failed to upvote"

  /** The early return at the top of `handleUpvote`. */
  function UpvoteIgnored(currentUser: Option<string>, hasUpvoted: bool, loading: bool): (ignored: bool)
    ensures !ignored <==> currentUser.Some? && !hasUpvoted && !loading
  {
    currentUser.None? || hasUpvoted || loading
  }

  /** The upvote button's `disabled` rule. */
  function UpvoteDisabled(loading: bool, currentUser: Option<string>, hasUpvoted: bool, authorId: string): (disabled: bool)
    ensures disabled <==> UpvoteIgnored(currentUser, hasUpvoted, loading) || currentUser == Some(authorId)
  {
    loading || currentUser.None? || hasUpvoted || (currentUser.Some? && currentUser.value == authorId)
  }

  /** Only the button keeps authors from upvoting their own complaint: the
      handler alone would accept the click. */
  lemma AuthorshipOnlyInButton(loading: bool, authorId: string, hasUpvoted: bool)
    ensures !hasUpvoted && !loading ==>
              !UpvoteIgnored(Some(authorId), hasUpvoted, loading) && UpvoteDisabled(loading, Some(authorId), hasUpvoted, authorId)
  {
  }

  /** `showAuthorityRedirect`: enough support, and not yet notified (a missing
      flag counts as not notified). */
  function ShowsAuthorityRedirect(localUpvotes: int, authorityNotified: Option<bool>): (show: bool)
    ensures show <==> localUpvotes >= EscalationThreshold && authorityNotified != Some(true)
  {
    localUpvotes >= EscalationThreshold && !(authorityNotified.Some? && authorityNotified.value)
  }

  /** Once escalated, a complaint is never offered for escalation again,
      whatever its count. */
  lemma EscalationHidesOffer(c: Backend.Complaint, location: Backend.Coordinates, localUpvotes: int)
    ensures !ShowsAuthorityRedirect(localUpvotes, Complaints.Escalated(c, location).authorityNotified)
  {
  }

  /** `getStatusColor`, which compares the lower-cased status. */
  function StatusColor(status: string): (color: string)
    ensures Lower(status) == "pending" ==> color == "bg-yellow-100 text-yellow-800"
    ensures Lower(status) == "in_progress" ==> color == "bg-blue-100 text-blue-800"
    ensures Lower(status) == "resolved" ==> color == "bg-green-100 text-green-800"
    ensures Lower(status) !in {"pending", "in_progress", "resolved"} ==> color == "bg-gray-100 text-gray-800"
  {
    var s := Lower(status);
    if s == "pending" then "bg-yellow-100 text-yellow-800"
    else if s == "in_progress" then "bg-blue-100 text-blue-800"
    else if s == "resolved" then "bg-green-100 text-green-800"
    else "bg-gray-100 text-gray-800"
  }

  lemma LowerCharIdempotent(c: char)
    ensures LowerChar(LowerChar(c)) == LowerChar(c)
  {
  }

  /** Lower-casing twice is lower-casing once. */
  lemma LowerIdempotent(s: string)
    ensures Lower(Lower(s)) == Lower(s)
  {
    forall i | 0 <= i < |s| ensures Lower(Lower(s))[i] == Lower(s)[i] {
      LowerCharIdempotent(s[i]);
    }
  }

  /** The status colour does not depend on letter case. */
  lemma StatusColorIgnoresCase(status: string)
    ensures StatusColor(Lower(status)) == StatusColor(status)
  {
    LowerIdempotent(status);
  }

  /** The file extensions rendered as images. */
  const ImageExtensions: seq<string> := [".jpg", ".jpeg", ".png", ".webp"]

  /** `url.match(/\.(jpg|jpeg|png|webp)$/i)`: the evidence is shown as an
      image, otherwise as a video. */
  function IsImageUrl(url: string): (isImage: bool)
    ensures isImage <==> exists k :: 0 <= k < |ImageExtensions| && EndsWithIgnoreCase(url, ImageExtensions[k])
  {
    assert ImageExtensions[0] == ".jpg" && ImageExtensions[1] == ".jpeg";
    assert ImageExtensions[2] == ".png" && ImageExtensions[3] == ".webp";
    EndsWithIgnoreCase(url, ".jpg") || EndsWithIgnoreCase(url, ".jpeg")
    || EndsWithIgnoreCase(url, ".png") || EndsWithIgnoreCase(url, ".webp")
  }

  lemma LowerSuffix(s: string, n: nat)
    requires n <= |s|
    ensures Lower(s)[n..] == Lower(s[n..])
  {
  }

  /** Whether evidence is an image does not depend on letter case. */
  lemma IsImageUrlIgnoresCase(url: string)
    ensures IsImageUrl(Lower(url)) == IsImageUrl(url)
  {
    forall k | 0 <= k < |ImageExtensions|
      ensures EndsWithIgnoreCase(Lower(url), ImageExtensions[k]) == EndsWithIgnoreCase(url, ImageExtensions[k])
    {
      var e := ImageExtensions[k];
      if |e| <= |url| {
        var n := |url| - |e|;
        LowerSuffix(url, n);
        LowerIdempotent(url[n..]);
      }
    }
  }

  /** The state of one rendered card. */
  class Card {
    const complaintId: string
    const authorId: string
    const authorityNotified: Option<bool>
    const currentUser: Option<string>
    var loading: bool
    var redirecting: bool
    var error: Option<string>
    var hasUpvoted: bool
    var localUpvotes: int

    constructor (complaint: Backend.Complaint, currentUser: Option<string>)
      ensures complaintId == complaint.id && authorId == complaint.userId
      ensures authorityNotified == complaint.authorityNotified && this.currentUser == currentUser
      ensures !loading && !redirecting && error.None? && !hasUpvoted && localUpvotes == complaint.upvotes
    {
      complaintId := complaint.id;
      authorId := complaint.userId;
      authorityNotified := complaint.authorityNotified;
      this.currentUser := currentUser;
      loading, redirecting, error := false, false, None;
      hasUpvoted, localUpvotes := false, complaint.upvotes;
    }

    /** `checkUpvoteStatus`: with a user and an id, whether a vote by this user
        on this complaint is stored; a failed query reads as no vote. */
    method CheckUpvoteStatus(db: Backend.Database, queryFails: bool)
      modifies this`hasUpvoted
      ensures currentUser.None? || complaintId == "" ==> hasUpvoted == old(hasUpvoted)
      ensures currentUser.Some? && complaintId != "" ==>
                (hasUpvoted <==> !queryFails && Backend.ComplaintUpvote(complaintId, currentUser.value) in db.complaintUpvotes)
    {
      if currentUser.None? || complaintId == "" {
        return;
      }
      if queryFails {
        hasUpvoted := false;
      } else {
        hasUpvoted := Backend.ComplaintUpvote(complaintId, currentUser.value) in db.complaintUpvotes;
      }
    }

    /** The part of `handleUpvote` before the insert: mark loading, clear the
        error, and count the vote optimistically. */
    method BeginUpvote()
      requires !UpvoteIgnored(currentUser, hasUpvoted, loading)
      modifies this`loading, this`error, this`hasUpvoted, this`localUpvotes
      ensures loading && error.None? && hasUpvoted && localUpvotes == old(localUpvotes) + 1
    {
      loading := true;
      error := None;
      hasUpvoted := true;
      localUpvotes := localUpvotes + 1;
    }

    /** The part of `handleUpvote` after the insert: keep the vote, or take it
        back and report the error; loading ends either way. */
    method FinishUpvote(db: Backend.Database, insertError: Option<Thrown>)
      requires currentUser.Some?
      modifies this`loading, this`error, this`hasUpvoted, this`localUpvotes, db`complaintUpvotes
      ensures !loading
      ensures insertError.None? ==>
                && hasUpvoted == old(hasUpvoted) && localUpvotes == old(localUpvotes) && error == old(error)
                && db.complaintUpvotes == old(db.complaintUpvotes) + [Backend.ComplaintUpvote(complaintId, currentUser.value)]
      ensures insertError.Some? ==>
                && !hasUpvoted && localUpvotes == old(localUpvotes) - 1
                && error == Some(MessageOr(insertError.value, UpvoteFallback))
                && db.complaintUpvotes == old(db.complaintUpvotes)
    {
      if insertError.None? {
        db.complaintUpvotes := db.complaintUpvotes + [Backend.ComplaintUpvote(complaintId, currentUser.value)];
      } else {
        hasUpvoted := false;
        localUpvotes := localUpvotes - 1;
        error := Some(MessageOr(insertError.value, UpvoteFallback));
      }
      loading := false;
    }

    /** `handleUpvote`: ignored without a user, after a vote or while loading;
        otherwise one vote is stored, or on failure the count is back where it
        was and an error is shown. */
    method HandleUpvote(db: Backend.Database, insertError: Option<Thrown>)
      modifies this`loading, this`error, this`hasUpvoted, this`localUpvotes, db`complaintUpvotes
      ensures old(UpvoteIgnored(currentUser, hasUpvoted, loading)) ==>
                && unchanged(this) && db.complaintUpvotes == old(db.complaintUpvotes)
      ensures !old(UpvoteIgnored(currentUser, hasUpvoted, loading)) ==> !loading
      ensures !old(UpvoteIgnored(currentUser, hasUpvoted, loading)) && insertError.None? ==>
                && hasUpvoted && localUpvotes == old(localUpvotes) + 1 && error.None?
                && db.complaintUpvotes == old(db.complaintUpvotes) + [Backend.ComplaintUpvote(complaintId, currentUser.value)]
      ensures !old(UpvoteIgnored(currentUser, hasUpvoted, loading)) && insertError.Some? ==>
                && hasUpvoted == old(hasUpvoted) && localUpvotes == old(localUpvotes)
                && error == Some(MessageOr(insertError.value, UpvoteFallback))
                && db.complaintUpvotes == old(db.complaintUpvotes)
    {
      if UpvoteIgnored(currentUser, hasUpvoted, loading) {
        return;
      }
      BeginUpvote();
      FinishUpvote(db, insertError);
    }

    /** The realtime handler: the count read back from the complaint replaces
        the local one, when a row came back. */
    method ApplyServerCount(fetched: Option<int>)
      modifies this`localUpvotes
      ensures localUpvotes == if fetched.Some? then fetched.value else old(localUpvotes)
    {
      if fetched.Some? {
        localUpvotes := fetched.value;
      }
    }

    /** `handleRedirectToAuthority`: returns whether `onUpdate` was called. An
        error result with an empty message is falsy and taken as success. */
    method HandleRedirectToAuthority(db: Backend.Database, fetchError: Option<Thrown>,
                                     geo: Complaints.Geolocation, updateError: Option<Thrown>)
      returns (updated: bool)
      modifies this`redirecting, this`error, db`complaints
      ensures complaintId == "" ==> !updated && unchanged(this) && db.complaints == old(db.complaints)
      ensures complaintId != "" ==>
                var r := Complaints.RedirectOutcome(old(db.complaints), complaintId, fetchError, geo, updateError);
                && !redirecting
                && (updated <==> r.Redirected? || r.message == "")
                && error == (if updated then None else Some(r.message))
                && db.complaints == (if r.Redirected?
                                     then old(db.complaints)[complaintId := Complaints.Escalated(old(db.complaints)[complaintId], geo.coords)]
                                     else old(db.complaints))
    {
      if complaintId == "" {
        return false;
      }
      redirecting := true;
      error := None;
      var r := Complaints.RedirectToAuthority(db, complaintId, fetchError, geo, updateError);
      if r.RedirectError? && r.message != "" {
        error := Some(r.message);
        updated := false;
      } else {
        updated := true;
      }
      redirecting := false;
    }
  }
}
