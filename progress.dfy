/** Match ingestion and progress (`updateQuests`, `getParticipantData`): which recent matches
    qualify, the ledger that makes ingestion idempotent, the lookup of the user's record in a
    game, and the clamped progress update with its completion flag. */
module Progress {
  import opened Wrappers
  import opened Schema

  // ---------------------------------------------------------------- qualification

  /** The ledger holds game `gameId` for user `userId`. */
  predicate Ledgered(ledger: set<UserMatch>, userId: nat, gameId: nat)
  {
    UserMatch(gameId, userId) in ledger
  }

  /** `Date.parse(quest.activationDate) > match.timestamp`. This holds when the quest was
      activated AFTER the match was played, although the comment above the filter speaks of
      matches that occurred after activation; the comparison is kept as written. A missing
      date parses to NaN, and every comparison with NaN is false. */
  predicate ActivatedAfter(x: UserQuest, m: MatchSummary)
  {
    x.activationDate.Some? && x.activationDate.value > m.timestamp
  }

  /** `quest.quest.championId === champion`. */
  predicate OnChampion(x: UserQuest, quests: seq<Quest>, champion: nat)
  {
    QuestById(quests, x.questId).Some? && QuestById(quests, x.questId).value.championId == champion
  }

  /** A recent match counts for the user when its game is not in the user's ledger and some
      quest of the user (in any state) on the match's champion passes the date comparison. */
  predicate Qualifies(m: MatchSummary, ledger: set<UserMatch>, userId: nat, mine: seq<UserQuest>, quests: seq<Quest>)
  {
    && !Ledgered(ledger, userId, m.gameId)
    && exists x :: x in mine && ActivatedAfter(x, m) && OnChampion(x, quests, m.champion)
  }

  /** `validMatches`: the recent matches that qualify, in provider order. */
  function QualifyingMatches(recent: seq<MatchSummary>, ledger: set<UserMatch>, userId: nat,
                             mine: seq<UserQuest>, quests: seq<Quest>): (valid: seq<MatchSummary>)
    ensures forall m :: m in valid <==> m in recent && Qualifies(m, ledger, userId, mine, quests)
    ensures valid == [] <==> forall m :: m in recent ==> !Qualifies(m, ledger, userId, mine, quests)
    ensures |valid| <= |recent|
  {
    if recent == [] then []
    else
      var init := recent[..|recent| - 1];
      var last := recent[|recent| - 1];
      assert recent == init + [last];
      QualifyingMatches(init, ledger, userId, mine, quests)
      + (if Qualifies(last, ledger, userId, mine, quests) then [last] else [])
  }

  /** The ledger insert `UserMatch.query().insert(userMatches)`, one entry per qualifying
      match, keyed by the (game, user) pair that the per-user check above reads. */
  function RecordMatches(ledger: set<UserMatch>, userId: nat, valid: seq<MatchSummary>): (r: set<UserMatch>)
    ensures forall e :: e in r <==> e in ledger || (e.userId == userId && exists m :: m in valid && m.gameId == e.id)
  {
    ledger + set m | m in valid :: UserMatch(m.gameId, userId)
  }

  /** The same insert against the schema as written, whose primary key is the game id alone:
      the multi-row insert fails as a whole when one of its games is already recorded, for
      any user, or occurs twice in the batch; the source drops the failure (`.then()` with
      no handler), so the ledger stays as it was. */
  function InsertLedgerAsWritten(ledger: set<UserMatch>, entries: seq<UserMatch>): (r: set<UserMatch>)
    ensures r == ledger || r == ledger + set e | e in entries
    ensures (exists e, x :: e in entries && x in ledger && x.id == e.id) ==> r == ledger
    ensures (exists i, j | 0 <= i < j < |entries| :: entries[i].id == entries[j].id) ==> r == ledger
    ensures (forall e, x :: e in entries && x in ledger ==> x.id != e.id)
            && (forall i, j | 0 <= i < j < |entries| :: entries[i].id != entries[j].id)
            ==> r == ledger + set e | e in entries
  {
    if (exists e, r :: e in entries && r in ledger && r.id == e.id)
       || (exists i, j | 0 <= i < j < |entries| :: entries[i].id == entries[j].id)
    then ledger
    else ledger + set e | e in entries
  }

  /** Two users who played the same game: user 1 has recorded game 42, and user 2 has an
      active quest on the champion user 2 played in it. With the game id as the only key the
      insert for user 2 fails, so game 42 qualifies again on user 2's next update and its
      statistics are added a second time; with the (game, user) key it does not. */
  lemma LedgerKeyCounterexample()
    ensures var quests := [Quest(9, 0, "q", 5, "{}", [])];
            var mine := [UserQuest(3, 9, 2, true, false, Some(2000), [])];
            var m := MatchSummary(42, 1000, 5);
            var ledger := {UserMatch(42, 1)};
            && QualifyingMatches([m], ledger, 2, mine, quests) == [m]
            && Qualifies(m, InsertLedgerAsWritten(ledger, [UserMatch(42, 2)]), 2, mine, quests)
            && !Qualifies(m, RecordMatches(ledger, 2, [m]), 2, mine, quests)
  {
    var quests := [Quest(9, 0, "q", 5, "{}", [])];
    var mine := [UserQuest(3, 9, 2, true, false, Some(2000), [])];
    var m := MatchSummary(42, 1000, 5);
    var ledger := {UserMatch(42, 1)};
    assert mine[0] in mine && ActivatedAfter(mine[0], m) && OnChampion(mine[0], quests, 5);
    assert UserMatch(42, 1) in ledger && UserMatch(42, 2) in [UserMatch(42, 2)];
    assert InsertLedgerAsWritten(ledger, [UserMatch(42, 2)]) == ledger;
    assert QualifyingMatches([m], ledger, 2, mine, quests) == QualifyingMatches([], ledger, 2, mine, quests) + [m];
  }

  /** Recording the qualifying matches makes a second pass over the same recent list qualify
      nothing, as long as no quest of the user gained an activation date in between. */
  lemma RecordedMatchesDoNotRequalify(recent: seq<MatchSummary>, ledger: set<UserMatch>, userId: nat,
                                      mine: seq<UserQuest>, later: seq<UserQuest>, quests: seq<Quest>)
    requires forall x :: x in later ==> exists y :: y in mine && y.questId == x.questId && y.activationDate == x.activationDate
    ensures var valid := QualifyingMatches(recent, ledger, userId, mine, quests);
            QualifyingMatches(recent, RecordMatches(ledger, userId, valid), userId, later, quests) == []
  {
    var valid := QualifyingMatches(recent, ledger, userId, mine, quests);
    var ledger2 := RecordMatches(ledger, userId, valid);
    var again := QualifyingMatches(recent, ledger2, userId, later, quests);
    forall m | m in recent ensures !Qualifies(m, ledger2, userId, later, quests) {
      if Qualifies(m, ledger, userId, mine, quests) {
        assert m in valid;
        assert UserMatch(m.gameId, userId) in ledger2;
      } else if !Ledgered(ledger, userId, m.gameId) {
        forall x | x in later ensures !(ActivatedAfter(x, m) && OnChampion(x, quests, m.champion)) {
          var y :| y in mine && y.questId == x.questId && y.activationDate == x.activationDate;
          assert !(ActivatedAfter(y, m) && OnChampion(y, quests, m.champion));
        }
      }
    }
  }

  // ---------------------------------------------------------------- participant lookup

  /** `participantIdentities.find(participant => participant.player.accountId === id)`.
      `None` also stands for the TypeError raised on an identity without a player. */
  function FindIdentity(identities: seq<ParticipantIdentity>, accountId: nat): (r: Option<ParticipantIdentity>)
    ensures r.Some? ==> r.value in identities && r.value.player == Some(Player(accountId))
    ensures ((forall i :: i in identities ==> i.player.Some?)
             && (exists i :: i in identities && i.player == Some(Player(accountId)))) ==> r.Some?
  {
    if identities == [] then None
    else if identities[0].player.None? then None
    else if identities[0].player.value.accountId == accountId then Some(identities[0])
    else
      assert forall i :: i in identities && i != identities[0] ==> i in identities[1..];
      FindIdentity(identities[1..], accountId)
  }

  /** `participants.find(p => identity.participantId === p.participantId)`. */
  function FindById(parts: seq<Participant>, participantId: nat): (r: Option<Participant>)
    ensures r.Some? ==> r.value in parts && r.value.participantId == participantId
    ensures r.None? ==> forall p :: p in parts ==> p.participantId != participantId
  {
    if parts == [] then None
    else if parts[0].participantId == participantId then Some(parts[0])
    else FindById(parts[1..], participantId)
  }

  /** `parts[k]` is the first participant playing `champion`. */
  predicate FirstOnChampion(parts: seq<Participant>, k: nat, champion: nat)
  {
    k < |parts| && parts[k].championId == champion && forall i | 0 <= i < k :: parts[i].championId != champion
  }

  /** `participants.find(p => p.championId === champion)`. */
  function FindByChampion(parts: seq<Participant>, champion: nat): (r: Option<Participant>)
    ensures r.Some? ==> exists k: nat :: FirstOnChampion(parts, k, champion) && parts[k] == r.value
    ensures r.None? ==> forall p :: p in parts ==> p.championId != champion
  {
    if parts == [] then None
    else if parts[0].championId == champion then
      assert FirstOnChampion(parts, 0, champion);
      Some(parts[0])
    else
      var r := FindByChampion(parts[1..], champion);
      if r.Some? then
        var k: nat :| FirstOnChampion(parts[1..], k, champion) && parts[1..][k] == r.value;
        assert FirstOnChampion(parts, k + 1, champion);
        r
      else r
  }

  /** The identities of `game` carry players (ranked data): the first one does. */
  predicate HasPlayers(game: Game)
  {
    |game.participantIdentities| > 0 && game.participantIdentities[0].player.Some?
  }

  /** `getParticipantData(id, champion, game)`: the user's participant record. With player
      data it is the participant whose id is that of the identity carrying the user's account;
      without it, the first participant on the user's champion. `None` is `undefined` or a
      TypeError (no identities at all, an identity without a player, no matching identity). */
  function GetParticipantData(accountId: nat, champion: nat, game: Game): (r: Option<Participant>)
    ensures r.Some? ==> r.value in game.participants
    ensures |game.participantIdentities| == 0 ==> r.None?
    ensures HasPlayers(game) && r.Some? ==>
              exists i :: i in game.participantIdentities && i.player == Some(Player(accountId))
                          && i.participantId == r.value.participantId
    ensures HasPlayers(game)
            && (forall i :: i in game.participantIdentities ==> i.player.Some?)
            && (exists i :: i in game.participantIdentities && i.player == Some(Player(accountId)))
            && (forall i :: i in game.participantIdentities ==>
                  exists p :: p in game.participants && p.participantId == i.participantId)
            ==> r.Some?
    ensures |game.participantIdentities| > 0 && !HasPlayers(game) ==>
              && (r.Some? ==> exists k: nat :: FirstOnChampion(game.participants, k, champion) && game.participants[k] == r.value)
              && ((exists p :: p in game.participants && p.championId == champion) ==> r.Some?)
  {
    if |game.participantIdentities| == 0 then None
    else if game.participantIdentities[0].player.Some? then
      match FindIdentity(game.participantIdentities, accountId)
      case None => None
      case Some(identity) => FindById(game.participants, identity.participantId)
    else FindByChampion(game.participants, champion)
  }

  /** `Promise.all` over the detail fetches followed by `getParticipantData` for each: one
      record per qualifying match, or `None` when a fetch fails (the game is missing from
      `provider`) or a lookup fails. */
  function ResolveParticipants(valid: seq<MatchSummary>, provider: map<nat, Game>, accountId: nat): (r: Option<seq<Participant>>)
    ensures r.Some? <==> forall m :: m in valid ==>
                           m.gameId in provider && GetParticipantData(accountId, m.champion, provider[m.gameId]).Some?
    ensures r.Some? ==> |r.value| == |valid| && forall k | 0 <= k < |valid| ::
                          valid[k].gameId in provider
                          && GetParticipantData(accountId, valid[k].champion, provider[valid[k].gameId]) == Some(r.value[k])
    ensures r.Some? ==> forall p :: p in r.value ==> exists m :: m in valid && m.gameId in provider && p in provider[m.gameId].participants
  {
    if valid == [] then Some([])
    else
      var m := valid[0];
      assert forall x :: x in valid ==> x == m || x in valid[1..];
      if m.gameId !in provider then None
      else
        match GetParticipantData(accountId, m.champion, provider[m.gameId])
        case None => None
        case Some(p) =>
          match ResolveParticipants(valid[1..], provider, accountId)
          case None => None
          case Some(rest) => Some([p] + rest)
  }

  // ---------------------------------------------------------------- progress

  /** Every record of `parts` reports the statistic of every objective in `qos`. */
  predicate CoversObjectives(parts: seq<Participant>, qos: seq<QuestObjective>)
  {
    forall p, o :: p in parts && o in qos ==> o.objective.key in p.stats
  }

  /** The same for the objectives of every quest. */
  predicate HasStats(parts: seq<Participant>, quests: seq<Quest>)
  {
    forall q :: q in quests ==> CoversObjectives(parts, q.objectives)
  }

  /** The same for the records of every game the provider returns. */
  predicate GamesHaveStats(provider: map<nat, Game>, quests: seq<Quest>)
  {
    forall g :: g in provider ==> HasStats(provider[g].participants, quests)
  }

  /** `reduce((acc, match) => acc + match.stats[key], 0)`. */
  function StatSum(parts: seq<Participant>, key: string): (sum: nat)
    requires forall p :: p in parts ==> key in p.stats
    ensures parts == [] ==> sum == 0
    ensures forall p :: p in parts ==> p.stats[key] <= sum
  {
    if parts == [] then 0
    else
      assert parts[|parts| - 1] in parts;
      StatSum(parts[..|parts| - 1], key) + parts[|parts| - 1].stats[key]
  }

  /** `matches.some(match => match.championId === championId)`. */
  predicate Progresses(parts: seq<Participant>, championId: nat)
  {
    exists p :: p in parts && p.championId == championId
  }

  /** A quest is progressed exactly when some record is applicable to its champion. */
  lemma ProgressesIffApplicable(parts: seq<Participant>, championId: nat)
    ensures Progresses(parts, championId) <==> Applicable(parts, championId) != []
  {
    if Progresses(parts, championId) {
      var p :| p in parts && p.championId == championId;
      assert p in Applicable(parts, championId);
    }
  }

  /** The smaller of two numbers. */
  function Min(a: nat, b: nat): nat
  {
    if a <= b then a else b
  }

  /** `applicableMatches`: the records on `championId`, in order. */
  function Applicable(parts: seq<Participant>, championId: nat): (a: seq<Participant>)
    ensures forall p :: p in a <==> p in parts && p.championId == championId
  {
    if parts == [] then []
    else
      var init := parts[..|parts| - 1];
      var last := parts[|parts| - 1];
      assert parts == init + [last];
      Applicable(init, championId) + (if last.championId == championId then [last] else [])
  }

  /** One objective's update: add the summed statistic, then clamp at the goal. Progress
      never decreases, stays within the goal, and reaches it exactly when the sum does. */
  function AdvanceObjective(o: UserQuestObjective, qo: QuestObjective, applicable: seq<Participant>): (r: UserQuestObjective)
    requires forall p :: p in applicable ==> qo.objective.key in p.stats
    ensures r.questObjectiveId == o.questObjectiveId
    ensures o.progress <= qo.goal ==> o.progress <= r.progress <= qo.goal
    ensures r.progress == qo.goal <==> o.progress + StatSum(applicable, qo.objective.key) >= qo.goal
  {
    var total := o.progress + StatSum(applicable, qo.objective.key);
    o.(progress := if total > qo.goal then qo.goal else total)
  }

  /** A UserQuest of the user after the update: untouched unless some record is on its
      champion; then every objective advances and the quest is completed if it was already
      or if every objective now sits at its goal. */
  function AdvanceRow(row: UserQuest, q: Quest, parts: seq<Participant>): (r: UserQuest)
    requires |row.objectives| == |q.objectives| && CoversObjectives(parts, q.objectives)
    ensures r.(objectives := row.objectives, completed := row.completed) == row
    ensures |r.objectives| == |row.objectives|
    ensures !Progresses(parts, q.championId) ==> r == row
    ensures row.completed ==> r.completed
    ensures Progresses(parts, q.championId) ==> (r.completed <==> row.completed || AllAtGoal(r.objectives, q.objectives))
  {
    if !Progresses(parts, q.championId) then row
    else
      var objs := AdvanceObjectives(row.objectives, q.objectives, Applicable(parts, q.championId));
      row.(objectives := objs, completed := row.completed || AllAtGoal(objs, q.objectives))
  }

  /** Every objective of a row advanced by the records in `applicable`. */
  function AdvanceObjectives(objs: seq<UserQuestObjective>, qos: seq<QuestObjective>, applicable: seq<Participant>): (r: seq<UserQuestObjective>)
    requires |objs| == |qos| && CoversObjectives(applicable, qos)
    ensures |r| == |objs|
    ensures forall j | 0 <= j < |objs| ::
              && qos[j] in qos
              && r[j].questObjectiveId == objs[j].questObjectiveId
              && r[j].progress == Min(qos[j].goal, objs[j].progress + StatSum(applicable, qos[j].objective.key))
  {
    seq(|objs|, j requires 0 <= j < |objs| =>
      assert qos[j] in qos;
      AdvanceObjective(objs[j], qos[j], applicable))
  }

  /** The quest of a well-formed row. */
  function QuestOf(row: UserQuest, quests: seq<Quest>): Quest
    requires RowWellFormed(row, quests)
  {
    QuestById(quests, row.questId).value
  }

  /** Every row of the store after the progress part of `updateQuests` for `userId`. Every
      row of the user takes part, offers and completed quests included: the source filters
      the user's quests by champion only. */
  function AdvanceAll(rows: seq<UserQuest>, userId: nat, quests: seq<Quest>, parts: seq<Participant>): (r: seq<UserQuest>)
    requires forall x :: x in rows ==> RowWellFormed(x, quests)
    requires HasStats(parts, quests)
    ensures |r| == |rows|
    ensures forall k | 0 <= k < |rows| ::
              && r[k].id == rows[k].id && r[k].userId == rows[k].userId && r[k].questId == rows[k].questId
              && r[k].active == rows[k].active && r[k].activationDate == rows[k].activationDate
              && (rows[k].userId != userId ==> r[k] == rows[k])
              && (rows[k].completed ==> r[k].completed)
  {
    seq(|rows|, k requires 0 <= k < |rows| =>
      assert rows[k] in rows;
      if rows[k].userId == userId then AdvanceRow(rows[k], QuestOf(rows[k], quests), parts) else rows[k])
  }

  /** The progress law: a row of another user, or on a champion no record is on, is
      unchanged; otherwise objective j becomes `min(goal, progress + sum)` over the records
      on the quest's champion, nothing but the objectives and the completed flag changes, and
      the row is completed exactly when every objective is at its goal. */
  lemma AdvanceEffect(rows: seq<UserQuest>, userId: nat, quests: seq<Quest>, nextId: nat, parts: seq<Participant>, k: nat)
    requires RowsValid(rows, quests, nextId) && HasStats(parts, quests) && k < |rows|
    ensures var r := AdvanceAll(rows, userId, quests, parts);
            var q := QuestOf(rows[k], quests);
            if rows[k].userId != userId || !Progresses(parts, q.championId) then r[k] == rows[k]
            else
              && r[k] == rows[k].(objectives := r[k].objectives, completed := r[k].completed)
              && |r[k].objectives| == |q.objectives|
              && (forall j | 0 <= j < |q.objectives| ::
                    var total := rows[k].objectives[j].progress + StatSum(Applicable(parts, q.championId), q.objectives[j].objective.key);
                    r[k].objectives[j].progress == (if total > q.objectives[j].goal then q.objectives[j].goal else total))
              && (r[k].completed <==> AllAtGoal(r[k].objectives, q.objectives))
  {
    assert rows[k] in rows;
  }

  /** Progress only grows, and no objective of any row passes its goal. */
  lemma AdvanceMonotone(rows: seq<UserQuest>, userId: nat, quests: seq<Quest>, nextId: nat, parts: seq<Participant>, k: nat, j: nat)
    requires RowsValid(rows, quests, nextId) && HasStats(parts, quests) && k < |rows| && j < |rows[k].objectives|
    ensures var r := AdvanceAll(rows, userId, quests, parts);
            && |r[k].objectives| == |rows[k].objectives|
            && rows[k].objectives[j].progress <= r[k].objectives[j].progress <= QuestOf(rows[k], quests).objectives[j].goal
  {
    assert rows[k] in rows;
  }

  /** The update keeps the store invariant: keys are untouched, each row keeps one objective
      per QuestObjective within its goal, and a completed row has every objective at its goal. */
  lemma AdvanceKeepsValid(rows: seq<UserQuest>, userId: nat, quests: seq<Quest>, nextId: nat, parts: seq<Participant>)
    requires RowsValid(rows, quests, nextId) && HasStats(parts, quests)
    ensures RowsValid(AdvanceAll(rows, userId, quests, parts), quests, nextId)
  {
    var r := AdvanceAll(rows, userId, quests, parts);
    forall k | 0 <= k < |rows|
      ensures r[k].id == rows[k].id && r[k].userId == rows[k].userId && r[k].questId == rows[k].questId
      ensures r[k].id < nextId && RowWellFormed(r[k], quests)
    {
      assert rows[k] in rows;
      var q := QuestOf(rows[k], quests);
      if rows[k].userId == userId && Progresses(parts, q.championId) {
        assert ObjectivesMatch(r[k], q);
      }
    }
    forall x | x in r ensures x.id < nextId && RowWellFormed(x, quests) {
      var k :| 0 <= k < |r| && r[k] == x;
    }
    assert NoClash(r) by {
      forall i, j | 0 <= i < j < |r| ensures !Clash(r[i], r[j]) {
        assert !Clash(rows[i], rows[j]);
      }
    }
  }

  /** With no qualifying records the update changes nothing. */
  lemma AdvanceNothing(rows: seq<UserQuest>, userId: nat, quests: seq<Quest>)
    requires forall x :: x in rows ==> RowWellFormed(x, quests)
    ensures AdvanceAll(rows, userId, quests, []) == rows
  {
  }

  /** The update leaves every quest's activation date and quest as they were. */
  lemma AdvanceKeepsActivations(rows: seq<UserQuest>, userId: nat, quests: seq<Quest>, parts: seq<Participant>)
    requires forall x :: x in rows ==> RowWellFormed(x, quests)
    requires HasStats(parts, quests)
    ensures forall x :: x in RowsOf(AdvanceAll(rows, userId, quests, parts), userId) ==>
              exists y :: y in RowsOf(rows, userId) && y.questId == x.questId && y.activationDate == x.activationDate
  {
    var r := AdvanceAll(rows, userId, quests, parts);
    forall x | x in RowsOf(r, userId)
      ensures exists y :: y in RowsOf(rows, userId) && y.questId == x.questId && y.activationDate == x.activationDate
    {
      var k :| 0 <= k < |r| && r[k] == x;
      assert rows[k] in rows;
      assert rows[k] in RowsOf(rows, userId);
    }
  }

  // ---------------------------------------------------------------- one update cycle

  /** What one `updateQuests` call leaves behind: the rows, the ledger, and whether the
      progress part ran (false for the source's status 500). */
  datatype Outcome = Outcome(rows: seq<UserQuest>, ledger: set<UserMatch>, ok: bool)

  /** `updateQuests` for `user`: the ledger gains the qualifying matches first (the insert is
      issued before the details are fetched); then, if every detail fetch and lookup succeeds,
      progress advances, and otherwise no progress changes. */
  function UpdateEffect(rows: seq<UserQuest>, ledger: set<UserMatch>, quests: seq<Quest>, user: User,
                        recent: seq<MatchSummary>, provider: map<nat, Game>): (o: Outcome)
    requires forall x :: x in rows ==> RowWellFormed(x, quests)
    requires GamesHaveStats(provider, quests)
    ensures ledger <= o.ledger
    ensures forall e :: e in o.ledger && e !in ledger ==> e.userId == user.id && !Ledgered(ledger, user.id, e.id)
    ensures |o.rows| == |rows|
    ensures !o.ok ==> o.rows == rows
    ensures forall k | 0 <= k < |rows| :: rows[k].userId != user.id ==> o.rows[k] == rows[k]
  {
    var valid := QualifyingMatches(recent, ledger, user.id, RowsOf(rows, user.id), quests);
    var recorded := RecordMatches(ledger, user.id, valid);
    match ResolveParticipants(valid, provider, user.accountId)
    case None => Outcome(rows, recorded, false)
    case Some(parts) =>
      assert HasStats(parts, quests);
      Outcome(AdvanceAll(rows, user.id, quests, parts), recorded, true)
  }

  /** The rows after the update are still well formed for their quests. */
  lemma AdvanceKeepsWellFormed(rows: seq<UserQuest>, userId: nat, quests: seq<Quest>, parts: seq<Participant>)
    requires forall x :: x in rows ==> RowWellFormed(x, quests)
    requires HasStats(parts, quests)
    ensures forall x :: x in AdvanceAll(rows, userId, quests, parts) ==> RowWellFormed(x, quests)
  {
    var r := AdvanceAll(rows, userId, quests, parts);
    forall x | x in r ensures RowWellFormed(x, quests) {
      var k :| 0 <= k < |r| && r[k] == x;
      assert rows[k] in rows;
      var q := QuestOf(rows[k], quests);
      if rows[k].userId == userId {
        AdvanceRowMatches(rows[k], q, parts);
      }
    }
  }

  /** Advancing a row keeps one objective per QuestObjective, each within its goal. */
  lemma AdvanceRowMatches(row: UserQuest, q: Quest, parts: seq<Participant>)
    requires ObjectivesMatch(row, q) && CoversObjectives(parts, q.objectives)
    ensures ObjectivesMatch(AdvanceRow(row, q, parts), q)
  {
  }

  /** The records resolved from the provider's games report every tracked statistic. */
  lemma ResolvedHaveStats(valid: seq<MatchSummary>, provider: map<nat, Game>, accountId: nat, quests: seq<Quest>)
    requires GamesHaveStats(provider, quests)
    requires ResolveParticipants(valid, provider, accountId).Some?
    ensures HasStats(ResolveParticipants(valid, provider, accountId).value, quests)
  {
  }

  /** An update whose qualifying list is empty succeeds and changes nothing. */
  lemma UpdateWithNoMatches(rows: seq<UserQuest>, ledger: set<UserMatch>, quests: seq<Quest>, user: User,
                            recent: seq<MatchSummary>, provider: map<nat, Game>)
    requires forall x :: x in rows ==> RowWellFormed(x, quests)
    requires GamesHaveStats(provider, quests)
    requires QualifyingMatches(recent, ledger, user.id, RowsOf(rows, user.id), quests) == []
    ensures UpdateEffect(rows, ledger, quests, user, recent, provider) == Outcome(rows, ledger, true)
  {
    assert RecordMatches(ledger, user.id, []) == ledger;
    assert ResolveParticipants([], provider, user.accountId) == Some([]);
    AdvanceNothing(rows, user.id, quests);
  }

  /** Idempotence: a second update over the same recent matches succeeds and changes neither
      the rows nor the ledger, whether or not the first one got past its detail fetches. */
  lemma UpdateTwiceIsOnce(rows: seq<UserQuest>, ledger: set<UserMatch>, quests: seq<Quest>, user: User,
                          recent: seq<MatchSummary>, provider: map<nat, Game>)
    requires forall x :: x in rows ==> RowWellFormed(x, quests)
    requires GamesHaveStats(provider, quests)
    ensures var once := UpdateEffect(rows, ledger, quests, user, recent, provider);
            && (forall x :: x in once.rows ==> RowWellFormed(x, quests))
            && UpdateEffect(once.rows, once.ledger, quests, user, recent, provider) == Outcome(once.rows, once.ledger, true)
  {
    var mine := RowsOf(rows, user.id);
    var valid := QualifyingMatches(recent, ledger, user.id, mine, quests);
    var recorded := RecordMatches(ledger, user.id, valid);
    var parts := ResolveParticipants(valid, provider, user.accountId);
    var once := UpdateEffect(rows, ledger, quests, user, recent, provider);
    assert once.ledger == recorded;
    if parts.Some? {
      ResolvedHaveStats(valid, provider, user.accountId, quests);
      assert once.rows == AdvanceAll(rows, user.id, quests, parts.value);
      AdvanceKeepsWellFormed(rows, user.id, quests, parts.value);
      AdvanceKeepsActivations(rows, user.id, quests, parts.value);
    } else {
      assert once.rows == rows;
    }
    RecordedMatchesDoNotRequalify(recent, ledger, user.id, mine, RowsOf(once.rows, user.id), quests);
    UpdateWithNoMatches(once.rows, recorded, quests, user, recent, provider);
  }

  /** The worked case: goal 10, progress 8, a match worth 5 kills. Progress is clamped at 10
      and the quest, whose only objective that was, is completed. */
  lemma ClampScenario()
    ensures var kills := QuestObjective(1, Objective(1, "kills", "Kills"), 0, 10);
            var q := Quest(1, 0, "q", 7, "{}", [kills]);
            var row := UserQuest(1, 1, 1, true, false, Some(0), [UserQuestObjective(1, 8)]);
            var r := AdvanceRow(row, q, [Participant(1, 7, map["kills" := 5])]);
            r.objectives == [UserQuestObjective(1, 10)] && r.completed
  {
    var kills := QuestObjective(1, Objective(1, "kills", "Kills"), 0, 10);
    var parts := [Participant(1, 7, map["kills" := 5])];
    assert parts[0] in parts;
    assert StatSum(Applicable(parts, 7), "kills") == 5 by {
      assert Applicable(parts, 7) == parts;
    }
  }
}
