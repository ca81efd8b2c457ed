/** Points per action, the level a point total reaches, and awarding points to
    a user: a read of the user's total, an upsert of the new total and level,
    and an append to the transaction log, each of which can fail. */
module Gamification {
  import opened Outcomes
  import Backend

  /** The keys of the points table. */
  datatype Action = WasteReport | EcoEvent | VerifiedImplementation | ComplaintUpvote

  /** The points table. */
  function PointsFor(action: Action): (points: nat)
    ensures points > 0 && points % 50 == 0 && points <= 500
  {
    match action
    case WasteReport => 100
    case EcoEvent => 500
    case VerifiedImplementation => 300
    case ComplaintUpvote => 50
  }

  /** The action's key, as it is written into a transaction's reason. */
  function ActionKey(action: Action): string {
    match action
    case WasteReport => "waste_report"
    case EcoEvent => "eco_event"
    case VerifiedImplementation => "verified_implementation"
    case ComplaintUpvote => "complaint_upvote"
  }

  /** The points table, entry by entry. */
  lemma PointsTable()
    ensures PointsFor(WasteReport) == 100 && PointsFor(EcoEvent) == 500
    ensures PointsFor(VerifiedImplementation) == 300 && PointsFor(ComplaintUpvote) == 50
  {
  }

  /** The lower bounds of levels 1 to 10. */
  const LevelThresholds: seq<int> := [0, 1000, 2500, 5000, 10000, 20000, 35000, 50000, 75000, 100000]

  predicate Ascending(s: seq<int>) {
    forall i :: 0 < i < |s| ==> s[i - 1] <= s[i]
  }

  /** `s.findIndex(t => points < t)`: the first position whose threshold
      exceeds `points`, or -1 when there is none. */
  function FindIndexAbove(s: seq<int>, points: int): (r: int)
    ensures -1 <= r < |s|
    ensures r == -1 <==> forall i :: 0 <= i < |s| ==> s[i] <= points
    ensures r >= 0 ==> points < s[r] && forall i :: 0 <= i < r ==> s[i] <= points
  {
    if s == [] then -1
    else if points < s[0] then 0
    else
      var k := FindIndexAbove(s[1..], points);
      if k == -1 then -1 else k + 1
  }

  /** The number of thresholds at or below `points`. */
  function CountAtMost(s: seq<int>, points: int): (n: nat)
    ensures n <= |s|
  {
    if s == [] then 0 else (if s[0] <= points then 1 else 0) + CountAtMost(s[1..], points)
  }

  lemma {:induction false} CountNoneAtMost(s: seq<int>, points: int)
    requires forall i :: 0 <= i < |s| ==> points < s[i]
    ensures CountAtMost(s, points) == 0
  {
    if s != [] {
      CountNoneAtMost(s[1..], points);
    }
  }

  /** On ascending thresholds, the position `findIndex` returns is the number
      of thresholds passed; when it returns -1, all of them were passed. */
  lemma {:induction false} FindIndexCounts(s: seq<int>, points: int)
    requires Ascending(s)
    ensures var r := FindIndexAbove(s, points);
            CountAtMost(s, points) == if r == -1 then |s| else r
  {
    if s != [] {
      if points < s[0] {
        forall i | 0 <= i < |s| ensures points < s[i] {
          AscendingFromHead(s, i);
        }
        CountNoneAtMost(s, points);
      } else {
        FindIndexCounts(s[1..], points);
      }
    }
  }

  lemma {:induction false} AscendingFromHead(s: seq<int>, i: nat)
    requires Ascending(s) && i < |s|
    ensures s[0] <= s[i]
  {
    if i > 0 {
      AscendingFromHead(s, i - 1);
    }
  }

  /** `calculateLevel` as written: `findIndex(...) || LEVEL_THRESHOLDS.length`.
      Because -1 is truthy, the fallback applies only when `findIndex` gives 0,
      that is, for negative totals. */
  function CalculateLevel(points: int): (level: int)
    ensures points < 0 ==> level == 10
    ensures points >= 100000 ==> level == -1
    ensures 0 <= points < 100000 ==> 1 <= level <= 9
  {
    var i := FindIndexAbove(LevelThresholds, points);
    assert forall k :: 0 <= k < |LevelThresholds| ==> LevelThresholds[k] <= LevelThresholds[9] == 100000;
    if i != 0 then i else |LevelThresholds|
  }

  /** Below the top threshold, the level is the number of thresholds already
      reached. */
  lemma LevelCountsThresholds(points: int)
    requires 0 <= points < 100000
    ensures CalculateLevel(points) == CountAtMost(LevelThresholds, points)
  {
    FindIndexCounts(LevelThresholds, points);
  }

  /** The level reached by a number of points in the documented range is the
      count of thresholds already passed. */
  lemma LevelExamples()
    ensures CalculateLevel(0) == 1 && CalculateLevel(999) == 1 && CalculateLevel(1000) == 2
    ensures CalculateLevel(2499) == 2 && CalculateLevel(2500) == 3 && CalculateLevel(99999) == 9
    ensures CalculateLevel(100000) == -1 && CalculateLevel(-1) == 10
  {
    LevelCountsThresholds(0);
    LevelCountsThresholds(999);
    LevelCountsThresholds(1000);
    LevelCountsThresholds(2499);
    LevelCountsThresholds(2500);
    LevelCountsThresholds(99999);
  }

  /** No non-negative total reaches level 10: the top band yields -1. */
  lemma TopLevelUnreachable(points: int)
    requires points >= 0
    ensures CalculateLevel(points) != 10
    ensures CalculateLevel(points) == -1 <==> points >= 100000
  {
  }

  lemma {:induction false} CountMonotone(s: seq<int>, p: int, q: int)
    requires p <= q
    ensures CountAtMost(s, p) <= CountAtMost(s, q)
  {
    if s != [] {
      CountMonotone(s[1..], p, q);
    }
  }

  /** More points never give a lower level, below the top threshold. */
  lemma LevelMonotone(p: int, q: int)
    requires 0 <= p <= q < 100000
    ensures CalculateLevel(p) <= CalculateLevel(q)
  {
    LevelCountsThresholds(p);
    LevelCountsThresholds(q);
    CountMonotone(LevelThresholds, p, q);
  }

  /** The level the thresholds' comments describe: the number of lower bounds
      already reached, so level 10 from 100000 on, and level 1 below 0. */
  function IntendedLevel(points: int): (level: int)
    ensures 1 <= level <= 10
    ensures level == 10 <==> points >= 100000
  {
    var i := FindIndexAbove(LevelThresholds, points);
    assert forall k :: 0 <= k < |LevelThresholds| ==> LevelThresholds[k] <= LevelThresholds[9] == 100000;
    if i == -1 then |LevelThresholds| else if i == 0 then 1 else i
  }

  /** For every non-negative total, the intended level is the number of
      thresholds already reached. */
  lemma IntendedLevelCounts(points: int)
    requires points >= 0
    ensures IntendedLevel(points) == CountAtMost(LevelThresholds, points)
  {
    FindIndexCounts(LevelThresholds, points);
  }

  /** The intended level is monotone over every total. */
  lemma IntendedLevelMonotone(p: int, q: int)
    requires p <= q
    ensures IntendedLevel(p) <= IntendedLevel(q)
  {
    if p >= 0 {
      IntendedLevelCounts(p);
      IntendedLevelCounts(q);
      CountMonotone(LevelThresholds, p, q);
    }
  }

  /** The code as written and the intended level agree exactly on [0, 100000)
      and disagree on every total at or above 100000. */
  lemma LevelAsWrittenVersusIntended(points: int)
    ensures 0 <= points < 100000 ==> CalculateLevel(points) == IntendedLevel(points)
    ensures points >= 100000 ==> CalculateLevel(points) == -1 && IntendedLevel(points) == 10
  {
    if 0 <= points < 100000 {
      LevelCountsThresholds(points);
      IntendedLevelCounts(points);
    }
  }

  /** The outcome of each store call `awardPoints` makes; `None` is success. */
  datatype AwardOutcomes = AwardOutcomes(
    fetchError: Option<Thrown>, upsertError: Option<Thrown>, insertError: Option<Thrown>)

  /** What `awardPoints` returns. */
  datatype Award = Award(points: int, level: int)

  /** `userPoints?.points || 0`. */
  function PriorPoints(table: map<string, Backend.UserPoints>, userId: string): int {
    if userId in table then table[userId].points else 0
  }

  /** The text recorded as a transaction's reason. */
  function Reason(action: Action, referenceId: string): string {
    ActionKey(action) + ": " + referenceId
  }

  /** The new total `awardPoints` computes. */
  function NewTotal(table: map<string, Backend.UserPoints>, userId: string, action: Action): int {
    PriorPoints(table, userId) + PointsFor(action)
  }

  /** What `awardPoints` resolves or rejects with. */
  function AwardResult(table: map<string, Backend.UserPoints>, userId: string, action: Action,
                       outcomes: AwardOutcomes): (r: Result<Award, Thrown>)
    ensures r.Success? <==> outcomes.fetchError.None? && outcomes.upsertError.None? && outcomes.insertError.None?
    ensures r.Success? ==> r.value.points == NewTotal(table, userId, action) && r.value.level == CalculateLevel(r.value.points)
    ensures r.Success? ==> r.value.points > PriorPoints(table, userId)
    ensures outcomes.fetchError.Some? ==> r == Failure(outcomes.fetchError.value)
    ensures outcomes.fetchError.None? && outcomes.upsertError.Some? ==> r == Failure(outcomes.upsertError.value)
    ensures outcomes.fetchError.None? && outcomes.upsertError.None? && outcomes.insertError.Some?
            ==> r == Failure(outcomes.insertError.value)
  {
    var total := NewTotal(table, userId, action);
    if outcomes.fetchError.Some? then Failure(outcomes.fetchError.value)
    else if outcomes.upsertError.Some? then Failure(outcomes.upsertError.value)
    else if outcomes.insertError.Some? then Failure(outcomes.insertError.value)
    else Success(Award(total, CalculateLevel(total)))
  }

  /** The `user_points` table after `awardPoints`: the upsert happens once the
      fetch succeeded, whatever the insert then does. */
  function PointsAfterAward(table: map<string, Backend.UserPoints>, userId: string, action: Action,
                            outcomes: AwardOutcomes): (after: map<string, Backend.UserPoints>)
    ensures forall u :: u != userId ==> (u in after <==> u in table) && (u in table ==> after[u] == table[u])
    ensures outcomes.fetchError.Some? || outcomes.upsertError.Some? ==> after == table
    ensures outcomes.fetchError.None? && outcomes.upsertError.None? ==>
              && userId in after
              && after[userId].points == PriorPoints(table, userId) + PointsFor(action)
              && after[userId].level == CalculateLevel(after[userId].points)
  {
    var total := NewTotal(table, userId, action);
    if outcomes.fetchError.None? && outcomes.upsertError.None?
    then table[userId := Backend.UserPoints(total, CalculateLevel(total))]
    else table
  }

  /** The transaction log after `awardPoints`: one entry, only on success. */
  function LogAfterAward(log: seq<Backend.PointTransaction>, userId: string, action: Action, referenceId: string,
                         outcomes: AwardOutcomes): (newLog: seq<Backend.PointTransaction>)
    ensures outcomes.fetchError.Some? || outcomes.upsertError.Some? || outcomes.insertError.Some? ==> newLog == log
    ensures outcomes.fetchError.None? && outcomes.upsertError.None? && outcomes.insertError.None? ==>
              && |newLog| == |log| + 1 && newLog[..|log|] == log
              && newLog[|log|].userId == userId && newLog[|log|].points == PointsFor(action)
              && newLog[|log|].reason == Reason(action, referenceId)
  {
    if outcomes.fetchError.None? && outcomes.upsertError.None? && outcomes.insertError.None?
    then log + [Backend.PointTransaction(userId, PointsFor(action), Reason(action, referenceId))]
    else log
  }

  /** On success the stored row is what was returned, and the log grew by one
      entry that records the awarded amount, not the new total. */
  lemma AwardConsistent(table: map<string, Backend.UserPoints>, log: seq<Backend.PointTransaction>,
                        userId: string, action: Action, referenceId: string, outcomes: AwardOutcomes)
    requires AwardResult(table, userId, action, outcomes).Success?
    ensures var award := AwardResult(table, userId, action, outcomes).value;
            var after := PointsAfterAward(table, userId, action, outcomes);
            && userId in after && after[userId] == Backend.UserPoints(award.points, award.level)
            && forall u :: u in table && u != userId ==> u in after && after[u] == table[u]
    ensures var newLog := LogAfterAward(log, userId, action, referenceId, outcomes);
            && |newLog| == |log| + 1 && newLog[..|log|] == log
            && newLog[|log|].points == PointsFor(action)
            && newLog[|log|].reason == ActionKey(action) + ": " + referenceId
  {
    assert LogAfterAward(log, userId, action, referenceId, outcomes)[..|log|] == log;
  }

  /** The stored level is the intended one for every new total below the
      top threshold, and -1 instead of 10 from there on. */
  lemma StoredLevelVersusIntended(table: map<string, Backend.UserPoints>, userId: string, action: Action,
                                  outcomes: AwardOutcomes)
    requires AwardResult(table, userId, action, outcomes).Success?
    ensures var award := AwardResult(table, userId, action, outcomes).value;
            && (0 <= award.points < 100000 ==> award.level == IntendedLevel(award.points))
            && (award.points >= 100000 ==> award.level == -1 && IntendedLevel(award.points) == 10)
  {
    var award := AwardResult(table, userId, action, outcomes).value;
    LevelAsWrittenVersusIntended(award.points);
  }

  /** Nothing is undone: when only the log insert fails, the points are
      already updated but no transaction records them. */
  lemma AwardWithoutLogEntry(table: map<string, Backend.UserPoints>, log: seq<Backend.PointTransaction>,
                             userId: string, action: Action, referenceId: string, outcomes: AwardOutcomes)
    requires outcomes.fetchError.None? && outcomes.upsertError.None? && outcomes.insertError.Some?
    ensures AwardResult(table, userId, action, outcomes).Failure?
    ensures LogAfterAward(log, userId, action, referenceId, outcomes) == log
    ensures var after := PointsAfterAward(table, userId, action, outcomes);
            userId in after && after[userId].points == PriorPoints(table, userId) + PointsFor(action)
            && after != table
  {
    var after := PointsAfterAward(table, userId, action, outcomes);
    assert after[userId].points > PriorPoints(table, userId);
    if userId in table {
      assert after[userId] != table[userId];
    }
  }

  /** A fetch or upsert failure writes nothing at all. */
  lemma AwardEarlyFailureWritesNothing(table: map<string, Backend.UserPoints>, log: seq<Backend.PointTransaction>,
                                       userId: string, action: Action, referenceId: string, outcomes: AwardOutcomes)
    requires outcomes.fetchError.Some? || outcomes.upsertError.Some?
    ensures PointsAfterAward(table, userId, action, outcomes) == table
    ensures LogAfterAward(log, userId, action, referenceId, outcomes) == log
  {
  }

  /** `awardPoints`: read the user's points, upsert the new total and level,
      append a transaction; each store call throws on error and no earlier
      write is undone. */
  method AwardPoints(db: Backend.Database, userId: string, action: Action, referenceId: string,
                     outcomes: AwardOutcomes)
    returns (r: Result<Award, Thrown>)
    modifies db`userPoints, db`pointTransactions
    ensures r == AwardResult(old(db.userPoints), userId, action, outcomes)
    ensures db.userPoints == PointsAfterAward(old(db.userPoints), userId, action, outcomes)
    ensures db.pointTransactions == LogAfterAward(old(db.pointTransactions), userId, action, referenceId, outcomes)
  {
    var points := PointsFor(action);
    if outcomes.fetchError.Some? {
      return Failure(outcomes.fetchError.value);
    }
    var newPoints := NewTotal(db.userPoints, userId, action);
    var newLevel := CalculateLevel(newPoints);
    if outcomes.upsertError.Some? {
      return Failure(outcomes.upsertError.value);
    }
    db.userPoints := db.userPoints[userId := Backend.UserPoints(newPoints, newLevel)];
    if outcomes.insertError.Some? {
      return Failure(outcomes.insertError.value);
    }
    db.pointTransactions := db.pointTransactions + [Backend.PointTransaction(userId, points, Reason(action, referenceId))];
    return Success(Award(newPoints, newLevel));
  }
}
