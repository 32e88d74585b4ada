/** Offer selection (`getNewQuests`): the gate on the user's current quests, the candidate
    query, the window of at most three candidates and the new UserQuest records. */
module Offers {
  import opened Wrappers
  import opened Schema
  import opened Roles

  /** A UserQuest as handed to `insertGraph`: no id and no activation date yet. */
  datatype OfferedQuest = OfferedQuest(questId: nat, userId: nat, completed: bool, active: bool,
                                       objectives: seq<UserQuestObjective>)

  /** `numOffered`: the rows that are not active. */
  function NumOffered(uqs: seq<UserQuest>): (n: nat)
    ensures n <= |uqs|
  {
    if uqs == [] then 0
    else NumOffered(uqs[..|uqs| - 1]) + (if uqs[|uqs| - 1].active then 0 else 1)
  }

  /** `numActive`: the rows that are active and not completed. */
  function NumActive(uqs: seq<UserQuest>): (n: nat)
    ensures n <= |uqs|
  {
    if uqs == [] then 0
    else NumActive(uqs[..|uqs| - 1]) + (if uqs[|uqs| - 1].active && !uqs[|uqs| - 1].completed then 1 else 0)
  }

  /** `currentQuests`: the quest ids the user already holds, in any state. */
  function QuestIdsOf(uqs: seq<UserQuest>): (ids: seq<nat>)
    ensures |ids| == |uqs|
    ensures forall k | 0 <= k < |uqs| :: ids[k] == uqs[k].questId
    ensures forall x | x in uqs :: x.questId in ids
  {
    if uqs == [] then []
    else
      assert uqs == uqs[..|uqs| - 1] + [uqs[|uqs| - 1]];
      QuestIdsOf(uqs[..|uqs| - 1]) + [uqs[|uqs| - 1].questId]
  }

  /** The three tallies of `getNewQuests` after one more row. */
  lemma TallySnoc(uqs: seq<UserQuest>, x: UserQuest)
    ensures QuestIdsOf(uqs + [x]) == QuestIdsOf(uqs) + [x.questId]
    ensures NumOffered(uqs + [x]) == NumOffered(uqs) + (if x.active then 0 else 1)
    ensures NumActive(uqs + [x]) == NumActive(uqs) + (if x.active && !x.completed then 1 else 0)
  {
    assert (uqs + [x])[..|uqs|] == uqs;
  }

  /** No row is offered exactly when every row is active. */
  lemma {:induction false} NumOfferedZero(uqs: seq<UserQuest>)
    ensures NumOffered(uqs) == 0 <==> forall x :: x in uqs ==> x.active
  {
    if uqs != [] {
      var init := uqs[..|uqs| - 1];
      assert uqs == init + [uqs[|uqs| - 1]];
      NumOfferedZero(init);
    }
  }

  /** `numActive` counts one for each row that is active and not completed, so it is at most
      the number of active rows and reaches it when none of them is completed. */
  lemma {:induction false} NumActiveCounts(uqs: seq<UserQuest>)
    ensures NumActive(uqs) == 0 <==> forall x :: x in uqs ==> !x.active || x.completed
    ensures (forall x :: x in uqs ==> x.active && !x.completed) ==> NumActive(uqs) == |uqs|
  {
    if uqs != [] {
      var init := uqs[..|uqs| - 1];
      assert uqs == init + [uqs[|uqs| - 1]];
      NumActiveCounts(init);
    }
  }

  /** The gate: offers are made only when the user has no offered quest and fewer than five
      quests that are active and not completed. */
  predicate OfferAllowed(mine: seq<UserQuest>): (allowed: bool)
    ensures allowed <==> (forall x :: x in mine ==> x.active) && NumActive(mine) < 5
  {
    NumOfferedZero(mine);
    NumOffered(mine) == 0 && NumActive(mine) < 5
  }

  /** The quest query: `whereNotIn('id', existing).whereIn('championId', champIds)`, in table order. */
  function Candidates(quests: seq<Quest>, existing: seq<nat>, champIds: seq<nat>): (c: seq<Quest>)
    ensures forall q :: q in c <==> q in quests && q.id !in existing && q.championId in champIds
    ensures |c| <= |quests|
    ensures QuestIdsUnique(quests) ==> QuestIdsUnique(c)
  {
    if quests == [] then []
    else
      var init := quests[..|quests| - 1];
      var last := quests[|quests| - 1];
      assert quests == init + [last];
      var c0 := Candidates(init, existing, champIds);
      if last.id !in existing && last.championId in champIds then
        UniqueSnoc(init, last);
        UniqueSnoc(c0, last);
        c0 + [last]
      else
        UniqueSnoc(init, last);
        c0
  }

  /** A list with one more quest has unique ids iff the list has and the new id is not in it. */
  lemma UniqueSnoc(qs: seq<Quest>, x: Quest)
    ensures QuestIdsUnique(qs + [x]) <==> QuestIdsUnique(qs) && forall q :: q in qs ==> q.id != x.id
  {
    var s := qs + [x];
    if QuestIdsUnique(s) {
      forall q | q in qs ensures q.id != x.id {
        var k :| 0 <= k < |qs| && qs[k] == q;
        assert s[k] == q && s[|qs|] == x;
      }
      forall i, j | 0 <= i < j < |qs| ensures qs[i].id != qs[j].id {
        assert s[i] == qs[i] && s[j] == qs[j];
      }
    }
    if QuestIdsUnique(qs) && forall q :: q in qs ==> q.id != x.id {
      forall i, j | 0 <= i < j < |s| ensures s[i].id != s[j].id {
        if j == |qs| { assert s[i] in qs; }
      }
    }
  }

  /** `rand = Math.floor(Math.random() * (quests.length - 3))` with `random` the value of
      `Math.random()`. The start is below `len - 3`, so the last window, starting at
      `len - 3`, is never chosen (kept as the source has it). */
  function WindowStart(len: nat, random: real): (s: nat)
    requires 3 < len && 0.0 <= random < 1.0
    ensures s < len - 3
  {
    var n := (len - 3) as real;
    assert 0.0 <= random * n < n by {
      assert random * n <= 1.0 * n;
      assert random * n != n;
    }
    (random * n).Floor
  }

  /** Every start below `len - 3` is drawn by some value of `Math.random()`. */
  lemma WindowStartReachable(len: nat, s: nat)
    requires 3 < len && s < len - 3
    ensures 0.0 <= s as real / (len - 3) as real < 1.0
    ensures WindowStart(len, s as real / (len - 3) as real) == s
  {
    var n := (len - 3) as real;
    assert s as real / n * n == s as real;
  }

  /** `w` is the three candidates starting at `s`. */
  predicate WindowAt(cands: seq<Quest>, s: nat, w: seq<Quest>)
  {
    s + 3 <= |cands| && w == cands[s..s + 3]
  }

  /** The quests offered from the candidate list: all of them when there are at most three,
      otherwise the three starting at the drawn start. */
  function Window(cands: seq<Quest>, random: real): (w: seq<Quest>)
    requires 0.0 <= random < 1.0
    ensures |cands| <= 3 ==> w == cands
    ensures 3 < |cands| ==> |w| == 3 && exists s: nat :: s < |cands| - 3 && WindowAt(cands, s, w)
    ensures forall q :: q in w ==> q in cands
    ensures QuestIdsUnique(cands) ==> QuestIdsUnique(w)
  {
    if |cands| > 3 then
      var s := WindowStart(|cands|, random);
      var w := cands[s..s + 3];
      assert WindowAt(cands, s, w);
      assert forall k | 0 <= k < 3 :: w[k] == cands[s + k];
      w
    else cands
  }

  /** The quests `getNewQuests` offers to `user`, given the tables it reads. Each is a quest
      the user holds in no state, on a champion one of whose roles the user prefers. */
  function NewQuestWindow(user: User, userQuests: seq<UserQuest>, quests: seq<Quest>,
                          champions: seq<Champion>, random: real): (w: seq<Quest>)
    requires 0.0 <= random < 1.0
    ensures |w| <= 3
    ensures forall q :: q in w ==>
              && q in quests
              && (forall x :: x in RowsOf(userQuests, user.id) ==> x.questId != q.id)
              && exists c :: c in champions && c.id == q.championId && SuitsUser(c, user)
    ensures QuestIdsUnique(quests) ==> QuestIdsUnique(w)
  {
    var champIds := EligibleChampionIds(champions, CreateRolesArray(user));
    var cands := Candidates(quests, QuestIdsOf(RowsOf(userQuests, user.id)), champIds);
    var w := Window(cands, random);
    assert forall q :: q in w ==> exists c :: c in champions && c.id == q.championId && SuitsUser(c, user) by {
      forall q | q in w ensures exists c :: c in champions && c.id == q.championId && SuitsUser(c, user) {
        EligibleForUser(champions, user, q.championId);
      }
    }
    w
  }

  /** One offered objective per QuestObjective, in order, at progress 0. */
  function ZeroProgress(qos: seq<QuestObjective>): (objs: seq<UserQuestObjective>)
    ensures |objs| == |qos|
    ensures forall j | 0 <= j < |qos| :: objs[j].questObjectiveId == qos[j].id && objs[j].progress == 0
  {
    seq(|qos|, j requires 0 <= j < |qos| => UserQuestObjective(qos[j].id, 0))
  }

  /** The record offered for `q`: owned by `userId`, neither active nor completed. */
  function Materialise(userId: nat, q: Quest): (o: OfferedQuest)
    ensures o.questId == q.id && o.userId == userId && !o.active && !o.completed
    ensures |o.objectives| == |q.objectives|
    ensures forall j | 0 <= j < |q.objectives| ::
              o.objectives[j].questObjectiveId == q.objectives[j].id && o.objectives[j].progress == 0
  {
    OfferedQuest(q.id, userId, false, false, ZeroProgress(q.objectives))
  }

  /** The counting loop of `getNewQuests` over the user's rows. */
  method TallyQuests(mine: seq<UserQuest>) returns (currentQuests: seq<nat>, numOffered: nat, numActive: nat)
    ensures currentQuests == QuestIdsOf(mine)
    ensures numOffered == NumOffered(mine)
    ensures numActive == NumActive(mine)
  {
    currentQuests := [];
    numOffered := 0;
    numActive := 0;
    for i := 0 to |mine|
      invariant currentQuests == QuestIdsOf(mine[..i])
      invariant numOffered == NumOffered(mine[..i])
      invariant numActive == NumActive(mine[..i])
    {
      assert mine[..i + 1] == mine[..i] + [mine[i]];
      TallySnoc(mine[..i], mine[i]);
      currentQuests := currentQuests + [mine[i].questId];
      if !mine[i].active {
        numOffered := numOffered + 1;
      }
      if mine[i].active && !mine[i].completed {
        numActive := numActive + 1;
      }
    }
    assert mine[..|mine|] == mine;
  }

  /** `getNewQuests`. `random` stands for the value `Math.random()` returns. The result is
      `None` (the source's `null`) exactly when the gate is shut; otherwise it holds one
      fresh record per quest of the window, in order. */
  method GetNewQuests(user: User, userQuests: seq<UserQuest>, quests: seq<Quest>,
                      champions: seq<Champion>, random: real)
    returns (offer: Option<seq<OfferedQuest>>)
    requires 0.0 <= random < 1.0
    ensures offer.Some? <==> OfferAllowed(RowsOf(userQuests, user.id))
    ensures offer.Some? ==>
              var w := NewQuestWindow(user, userQuests, quests, champions, random);
              && |offer.value| == |w|
              && forall k | 0 <= k < |w| ::
                   && offer.value[k].questId == w[k].id
                   && offer.value[k].userId == user.id
                   && !offer.value[k].active && !offer.value[k].completed
                   && offer.value[k].objectives == ZeroProgress(w[k].objectives)
  {
    var mine := RowsOf(userQuests, user.id);
    var roles := CreateRolesArray(user);
    var champIds := EligibleChampionIds(champions, roles);
    var currentQuests, numOffered, numActive := TallyQuests(mine);
    if numOffered == 0 && numActive < 5 {
      var cands := Candidates(quests, currentQuests, champIds);
      ghost var w := Window(cands, random);
      var rand, upperLimit;
      if |cands| > 3 {
        rand := WindowStart(|cands|, random);
        upperLimit := rand + 3;
      } else {
        rand := 0;
        upperLimit := |cands|;
      }
      assert w == NewQuestWindow(user, userQuests, quests, champions, random);
      WindowIsSlice(cands, random, rand, upperLimit);
      var newQuests := NewUserQuests(user.id, cands, rand, upperLimit);
      offer := Some(newQuests);
    } else {
      offer := None;
    }
  }

  /** The bounds `getNewQuests` computes select exactly the window. */
  lemma WindowIsSlice(cands: seq<Quest>, random: real, rand: nat, upperLimit: nat)
    requires 0.0 <= random < 1.0
    requires rand == (if |cands| > 3 then WindowStart(|cands|, random) else 0)
    requires upperLimit == (if |cands| > 3 then rand + 3 else |cands|)
    ensures rand <= upperLimit <= |cands|
    ensures var w := Window(cands, random);
            && |w| == upperLimit - rand
            && forall k | 0 <= k < |w| :: w[k] == cands[rand + k]
  {
  }

  /** The loops of `getNewQuests` that build one record per chosen candidate
      `cands[rand..upperLimit)`, each with one objective per QuestObjective at progress 0. */
  method NewUserQuests(userId: nat, cands: seq<Quest>, rand: nat, upperLimit: nat)
    returns (newQuests: seq<OfferedQuest>)
    requires rand <= upperLimit <= |cands|
    ensures |newQuests| == upperLimit - rand
    ensures forall k | 0 <= k < |newQuests| ::
              && newQuests[k].questId == cands[rand + k].id
              && newQuests[k].userId == userId
              && !newQuests[k].active && !newQuests[k].completed
              && newQuests[k].objectives == ZeroProgress(cands[rand + k].objectives)
  {
    newQuests := [];
    for i := rand to upperLimit
      invariant |newQuests| == i - rand
      invariant forall k | 0 <= k < i - rand :: newQuests[k] == Materialise(userId, cands[rand + k])
    {
      // The source bounds this loop by `quests[j].objectives.length`; the bound used here
      // is the evidently intended `quests[i].objectives.length` (see ObjectivesAsWritten).
      var questObjectives: seq<UserQuestObjective> := [];
      for j := 0 to |cands[i].objectives|
        invariant questObjectives == ZeroProgress(cands[i].objectives[..j])
      {
        questObjectives := questObjectives + [UserQuestObjective(cands[i].objectives[j].id, 0)];
      }
      assert cands[i].objectives[..|cands[i].objectives|] == cands[i].objectives;
      newQuests := newQuests + [OfferedQuest(cands[i].id, userId, false, false, questObjectives)];
    }
  }

  /** The inner loop of `getNewQuests` as the source writes it:
      `for (j = 0; j < quests[j].objectives.length; j++) push(quests[i].objectives[j].id)`.
      The bound reads the j-th candidate instead of the i-th. `None` is a TypeError: reading
      `objectives` of `quests[j]` past the end, or `id` of a missing objective. */
  function ObjectivesAsWritten(quests: seq<Quest>, i: nat, j: nat): Option<seq<UserQuestObjective>>
    requires i < |quests|
    decreases |quests| - j
  {
    if j >= |quests| then None
    else if j >= |quests[j].objectives| then Some([])
    else if j >= |quests[i].objectives| then None
    else
      match ObjectivesAsWritten(quests, i, j + 1)
      case None => None
      case Some(rest) => Some([UserQuestObjective(quests[i].objectives[j].id, 0)] + rest)
  }

  /** Two candidate lists on which the loop as written departs from one objective per
      QuestObjective. A second quest behind a quest without objectives gets no objectives.
      With a quest of one objective followed by one of two, the loop already fails on the
      first quest (j = 1 reads its missing second objective), and on the second it reads a
      candidate past the end of the list. */
  lemma ObjectiveBoundCounterexample()
    ensures var kills := QuestObjective(7, Objective(1, "kills", "Kills"), 0, 10);
            var gold := QuestObjective(8, Objective(2, "goldEarned", "Gold"), 0, 5000);
            var bare := Quest(1, 0, "bare", 1, "{}", []);
            var one := Quest(2, 0, "one", 1, "{}", [kills]);
            var two := Quest(3, 0, "two", 1, "{}", [kills, gold]);
            && ObjectivesAsWritten([bare, one], 1, 0) == Some([])
            && |ZeroProgress(one.objectives)| == 1
            && ObjectivesAsWritten([one, two], 0, 0) == None
            && ObjectivesAsWritten([one, two], 1, 0) == None
            && |ZeroProgress(two.objectives)| == 2
  {
    var kills := QuestObjective(7, Objective(1, "kills", "Kills"), 0, 10);
    var gold := QuestObjective(8, Objective(2, "goldEarned", "Gold"), 0, 5000);
    var one := Quest(2, 0, "one", 1, "{}", [kills]);
    var two := Quest(3, 0, "two", 1, "{}", [kills, gold]);
    assert ObjectivesAsWritten([one, two], 0, 1) == None;
    assert ObjectivesAsWritten([one, two], 1, 2) == None;
  }
}
