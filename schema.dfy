/** The rows of the quest store and the external match records, with the lookups the
    engine performs on them and the invariant the store keeps. */
module Schema {
  import opened Wrappers

  /** The role tags a champion may carry in `role1`/`role2`. */
  datatype Role = Fighter | Marksman | Support | Assassin | Mage | Tank

  /** Reference data. An empty role slot is `None`. */
  datatype Champion = Champion(id: nat, key: string, name: string, role1: Option<Role>, role2: Option<Role>)

  /** Reference data: the statistic an objective tracks, named by `key`. */
  datatype Objective = Objective(id: nat, key: string, title: string)

  /** A quest's binding of an objective to a goal; `objective` is the Objective row that
      `objectiveId` refers to, as the eager load presents it. */
  datatype QuestObjective = QuestObjective(id: nat, objective: Objective, goalType: nat, goal: nat)

  /** Reference data; `objectives` are the QuestObjective rows whose `questId` is this quest,
      and `points` is the JSON payload, passed through untouched. */
  datatype Quest = Quest(id: nat, questType: nat, title: string, championId: nat, points: string,
                         objectives: seq<QuestObjective>)

  /** The user fields the engine reads: the linked account and the six role preferences. */
  datatype User = User(id: nat, accountId: nat,
                       assassin: bool, mage: bool, support: bool, fighter: bool, tank: bool, marksman: bool)

  /** Progress of one QuestObjective within one UserQuest. */
  datatype UserQuestObjective = UserQuestObjective(questObjectiveId: nat, progress: nat)

  /** The per-user instance of a quest. `activationDate` is `None` while the row is an offer;
      timestamps are milliseconds since the epoch. */
  datatype UserQuest = UserQuest(id: nat, questId: nat, userId: nat, active: bool, completed: bool,
                                 activationDate: Option<int>, objectives: seq<UserQuestObjective>)

  /** Ledger entry: game `id` has been applied to the progress of user `userId`. */
  datatype UserMatch = UserMatch(id: nat, userId: nat)

  /** One element of the provider's recent-match list for an account. */
  datatype MatchSummary = MatchSummary(gameId: nat, timestamp: int, champion: nat)

  /** The provider's full record of one game. Identities carry no player in reduced-data modes. */
  datatype Player = Player(accountId: nat)
  datatype ParticipantIdentity = ParticipantIdentity(participantId: nat, player: Option<Player>)
  datatype Participant = Participant(participantId: nat, championId: nat, stats: map<string, nat>)
  datatype Game = Game(participants: seq<Participant>, participantIdentities: seq<ParticipantIdentity>)

  /** `findById` on the Quest table: the first quest carrying `id`. */
  function QuestById(quests: seq<Quest>, id: nat): (r: Option<Quest>)
    ensures r.Some? ==> r.value in quests && r.value.id == id
    ensures r.None? ==> forall q :: q in quests ==> q.id != id
  {
    if quests == [] then None
    else if quests[0].id == id then Some(quests[0])
    else QuestById(quests[1..], id)
  }

  /** The primary key of the Quest table. */
  predicate QuestIdsUnique(quests: seq<Quest>)
  {
    forall i, j | 0 <= i < j < |quests| :: quests[i].id != quests[j].id
  }

  /** With unique ids a lookup by a quest's own id finds that very quest. */
  lemma {:induction false} QuestByIdFinds(quests: seq<Quest>, q: Quest)
    requires QuestIdsUnique(quests) && q in quests
    ensures QuestById(quests, q.id) == Some(q)
  {
    if quests[0] != q {
      assert q in quests[1..];
      QuestByIdFinds(quests[1..], q);
    }
  }

  /** The user's UserQuest rows (the `quests` relation of a User), in store order. */
  function RowsOf(rows: seq<UserQuest>, userId: nat): (r: seq<UserQuest>)
    ensures forall x :: x in r <==> x in rows && x.userId == userId
    ensures |r| <= |rows|
  {
    if rows == [] then []
    else
      assert rows == rows[..|rows| - 1] + [rows[|rows| - 1]];
      RowsOf(rows[..|rows| - 1], userId) + (if rows[|rows| - 1].userId == userId then [rows[|rows| - 1]] else [])
  }

  lemma RowsOfSnoc(rows: seq<UserQuest>, x: UserQuest, userId: nat)
    ensures RowsOf(rows + [x], userId) == RowsOf(rows, userId) + (if x.userId == userId then [x] else [])
  {
    assert (rows + [x])[..|rows|] == rows;
  }

  /** Two rows that may not coexist: the same primary key, or the same (user, quest) pair. */
  predicate Clash(a: UserQuest, b: UserQuest)
  {
    a.id == b.id || (a.userId == b.userId && a.questId == b.questId)
  }

  predicate NoClash(rows: seq<UserQuest>)
  {
    forall i, j | 0 <= i < j < |rows| :: !Clash(rows[i], rows[j])
  }

  lemma NoClashSnoc(rows: seq<UserQuest>, x: UserQuest)
    ensures NoClash(rows + [x]) <==> NoClash(rows) && forall y :: y in rows ==> !Clash(y, x)
  {
    var s := rows + [x];
    if NoClash(rows) && forall y :: y in rows ==> !Clash(y, x) {
      forall i, j | 0 <= i < j < |s| ensures !Clash(s[i], s[j]) {
        if j == |rows| { assert s[i] in rows; }
      }
    }
    if NoClash(s) {
      forall y | y in rows ensures !Clash(y, x) {
        var i :| 0 <= i < |rows| && rows[i] == y;
        assert s[i] == y && s[|rows|] == x;
      }
      forall i, j | 0 <= i < j < |rows| ensures !Clash(rows[i], rows[j]) {
        assert s[i] == rows[i] && s[j] == rows[j];
      }
    }
  }

  /** Every objective of a row is at its quest objective's goal. */
  predicate AllAtGoal(objs: seq<UserQuestObjective>, qos: seq<QuestObjective>)
    requires |objs| == |qos|
  {
    forall j | 0 <= j < |objs| :: objs[j].progress == qos[j].goal
  }

  /** A row has one objective per QuestObjective of its quest, in order; progress never
      exceeds the goal; and a completed row has every objective at its goal. */
  predicate ObjectivesMatch(row: UserQuest, q: Quest)
  {
    && |row.objectives| == |q.objectives|
    && (forall j | 0 <= j < |q.objectives| ::
          row.objectives[j].questObjectiveId == q.objectives[j].id
          && row.objectives[j].progress <= q.objectives[j].goal)
    && (row.completed ==> AllAtGoal(row.objectives, q.objectives))
  }

  predicate RowWellFormed(row: UserQuest, quests: seq<Quest>)
  {
    QuestById(quests, row.questId).Some? && ObjectivesMatch(row, QuestById(quests, row.questId).value)
  }

  /** The store invariant: the Quest key is unique, no two UserQuest rows clash, every
      UserQuest id is below the next id to hand out, and every row is well formed. */
  predicate RowsValid(rows: seq<UserQuest>, quests: seq<Quest>, nextId: nat)
  {
    && QuestIdsUnique(quests)
    && NoClash(rows)
    && (forall x | x in rows :: x.id < nextId && RowWellFormed(x, quests))
  }
}
