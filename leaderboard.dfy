/** The leaderboard panel: initials derived from e-mail addresses, the rank
    badge of each row, and the loading of the rows with its empty-data check. */
module Leaderboard {
  import opened Outcomes
  import opened Text

  const NoData: string := "No leaderboard data available."
  const LoadFallback: string := "Failed to load leaderboard"

  /** What stands for a missing or empty address. */
  const Unknown: string := "??"

  /** The first letters of the pieces, upper-cased; an empty piece adds
      nothing (`charAt(0)` of `""` is `""`). */
  function Firsts(parts: seq<string>): (r: string)
    ensures |r| <= |parts|
    ensures forall i :: 0 <= i < |r| ==> !('a' <= r[i] <= 'z')
    ensures (forall k :: 0 <= k < |parts| ==> parts[k] != []) ==>
              |r| == |parts| && forall k :: 0 <= k < |parts| ==> r[k] == UpperChar(parts[k][0])
  {
    if parts == [] then ""
    else (if parts[0] == [] then "" else [UpperChar(parts[0][0])]) + Firsts(parts[1..])
  }

  /** Each piece contributes on its own: the initials of a list of pieces are
      those of its front followed by those of its back. */
  lemma {:induction false} FirstsAppend(front: seq<string>, back: seq<string>)
    ensures Firsts(front + back) == Firsts(front) + Firsts(back)
  {
    if front == [] {
      assert front + back == back;
    } else {
      assert (front + back)[0] == front[0];
      assert (front + back)[1..] == front[1..] + back;
      FirstsAppend(front[1..], back);
    }
  }

  /** One piece gives its upper-cased first letter, or nothing when it is
      empty. */
  lemma FirstsOne(part: string)
    ensures Firsts([part]) == if part == [] then "" else [UpperChar(part[0])]
  {
    assert [part][1..] == [];
  }

  /** `getInitials`: "??" for a missing or empty address; otherwise the
      upper-cased first letter of every dot-separated piece of the text before
      the first '@'. */
  function GetInitials(email: Option<string>): (initials: string)
    ensures email.None? || email == Some("") ==> initials == Unknown
    ensures email.Some? && email.value != "" ==>
              |initials| <= |Split(Split(email.value, "@")[0], ".")|
              && forall i :: 0 <= i < |initials| ==> !('a' <= initials[i] <= 'z')
  {
    if email.None? || email.value == "" then Unknown
    else
      var name := Split(email.value, "@")[0];
      Firsts(Split(name, "."))
  }

  /** The initials of `first.second...@domain` are the pieces' first letters,
      one per piece, whatever the domain. */
  lemma InitialsOfAddress(parts: seq<string>, domain: string)
    requires |parts| >= 1
    requires forall k :: 0 <= k < |parts| ==> '.' !in parts[k] && '@' !in parts[k]
    ensures GetInitials(Some(Join(parts, ".") + "@" + domain)) == Firsts(parts)
  {
    var name := Join(parts, ".");
    CharNotInJoin(parts, '.', '@');
    FirstPieceBeforeSeparator(name, '@', domain);
    SplitJoin(parts, '.');
  }

  lemma InitialsExample()
    ensures GetInitials(Some("jane.doe@example.org")) == "JD"
  {
    var parts := ["jane", "doe"];
    assert Join(parts, ".") == "jane.doe" by {
      assert parts[1..] == ["doe"];
    }
    assert "jane.doe" + "@" + "example.org" == "jane.doe@example.org";
    InitialsOfAddress(parts, "example.org");
    assert Firsts(parts) == "JD" by {
      assert parts[1..] == ["doe"];
      assert parts[1..][1..] == [];
    }
  }

  /** What the first column of a row shows. */
  datatype Badge = GoldMedal | SilverMedal | BronzeMedal | Position(rank: nat)

  /** Medals for the first three rows, the 1-based position for the rest. */
  function RankBadge(index: nat): (badge: Badge)
    ensures index == 0 <==> badge == GoldMedal
    ensures index == 1 <==> badge == SilverMedal
    ensures index == 2 <==> badge == BronzeMedal
    ensures badge.Position? <==> index >= 3
    ensures badge.Position? ==> badge.rank == index + 1
  {
    if index == 0 then GoldMedal
    else if index == 1 then SilverMedal
    else if index == 2 then BronzeMedal
    else Position(index + 1)
  }

  /** No two rows show the same badge. */
  lemma RankBadgeInjective(i: nat, j: nat)
    requires i != j
    ensures RankBadge(i) != RankBadge(j)
  {
  }

  /** One leaderboard row; the address comes from the joined `users` row. */
  datatype Entry = Entry(userId: string, points: int, level: int, email: Option<string>)

  /** The panel's state. */
  class View {
    var entries: seq<Entry>
    var loading: bool
    var error: Option<string>

    constructor ()
      ensures entries == [] && loading && error.None?
    {
      entries, loading, error := [], true, None;
    }

    /** `fetchLeaderboard`, given what `getLeaderboard` returned or threw.
        Missing or empty data is an error and keeps the previous rows. */
    method FetchLeaderboard(result: Result<Option<seq<Entry>>, Thrown>)
      modifies this
      ensures !loading
      ensures result.Success? && result.value.Some? && result.value.value != [] ==>
                entries == result.value.value && error.None?
      ensures result.Success? && (result.value.None? || result.value.value == []) ==>
                entries == old(entries) && error == Some(NoData)
      ensures result.Failure? ==>
                entries == old(entries) && error == Some(MessageOr(result.error, LoadFallback))
    {
      loading := true;
      error := None;
      var thrown: Option<Thrown> := None;
      match result {
        case Failure(e) =>
          thrown := Some(e);
        case Success(data) =>
          if data.None? || data.value == [] {
            thrown := Some(ErrorObject(NoData));
          } else {
            entries := data.value;
          }
      }
      if thrown.Some? {
        error := Some(MessageOr(thrown.value, LoadFallback));
      }
      loading := false;
    }
  }
}
