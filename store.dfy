/** The quest store behind the three routes: the reference tables, the UserQuest rows, the
    match ledger and the next row id. `offerQuests`, `activateQuest` and `updateQuests` change
    it in place and keep its invariant. */
module Store {
  import opened Wrappers
  import opened Schema
  import opened Roles
  import opened Offers
  import opened Activation
  import opened Progress

  /** The rows `insertGraph` creates for an offer: ids from `nextId` on, no activation date. */
  function Inserted(batch: seq<OfferedQuest>, nextId: nat): (r: seq<UserQuest>)
    ensures |r| == |batch|
    ensures forall k | 0 <= k < |batch| ::
              && r[k].id == nextId + k && r[k].activationDate.None?
              && r[k].questId == batch[k].questId && r[k].userId == batch[k].userId
              && r[k].active == batch[k].active && r[k].completed == batch[k].completed
              && r[k].objectives == batch[k].objectives
  {
    seq(|batch|, k requires 0 <= k < |batch| =>
      UserQuest(nextId + k, batch[k].questId, batch[k].userId, batch[k].active, batch[k].completed,
                None, batch[k].objectives))
  }

  /** The rows one `offerQuests` call adds for `user`: none when the gate is shut, otherwise a
      fresh offer per quest of the window. */
  function OfferRows(user: User, rows: seq<UserQuest>, quests: seq<Quest>, champions: seq<Champion>,
                     random: real, nextId: nat): (r: seq<UserQuest>)
    requires 0.0 <= random < 1.0
    ensures |r| <= 3
  {
    if !OfferAllowed(RowsOf(rows, user.id)) then []
    else
      var w := NewQuestWindow(user, rows, quests, champions, random);
      seq(|w|, k requires 0 <= k < |w| =>
        UserQuest(nextId + k, w[k].id, user.id, false, false, None, ZeroProgress(w[k].objectives)))
  }

  /** What an offer adds: offers of the user only (inactive, not completed, no date, zero
      progress), on quests the user held in no state, each quest once, with fresh ids. */
  lemma OfferRowsAreOffers(user: User, rows: seq<UserQuest>, quests: seq<Quest>, champions: seq<Champion>,
                           random: real, nextId: nat)
    requires 0.0 <= random < 1.0 && QuestIdsUnique(quests)
    ensures var r := OfferRows(user, rows, quests, champions, random, nextId);
            && (r != [] ==> OfferAllowed(RowsOf(rows, user.id)))
            && (forall k | 0 <= k < |r| ::
                  && r[k].id == nextId + k && r[k].userId == user.id
                  && !r[k].active && !r[k].completed && r[k].activationDate.None?
                  && (forall o :: o in r[k].objectives ==> o.progress == 0)
                  && (forall x :: x in RowsOf(rows, user.id) ==> x.questId != r[k].questId))
            && (forall i, j | 0 <= i < j < |r| :: r[i].questId != r[j].questId)
  {
    var r := OfferRows(user, rows, quests, champions, random, nextId);
    if OfferAllowed(RowsOf(rows, user.id)) {
      var w := NewQuestWindow(user, rows, quests, champions, random);
      forall k | 0 <= k < |r| ensures forall x :: x in RowsOf(rows, user.id) ==> x.questId != r[k].questId {
        assert w[k] in w;
      }
    }
  }

  /** After an offer the user holds an offer, so the gate stays shut until one is activated:
      a second `offerQuests` offers nothing new. */
  lemma OfferShutsGate(user: User, rows: seq<UserQuest>, quests: seq<Quest>, champions: seq<Champion>,
                       random: real, random2: real, nextId: nat, nextId2: nat)
    requires 0.0 <= random < 1.0 && 0.0 <= random2 < 1.0 && QuestIdsUnique(quests)
    requires OfferRows(user, rows, quests, champions, random, nextId) != []
    ensures var r := rows + OfferRows(user, rows, quests, champions, random, nextId);
            OfferRows(user, r, quests, champions, random2, nextId2) == []
  {
    var offered := OfferRows(user, rows, quests, champions, random, nextId);
    var r := rows + offered;
    OfferRowsAreOffers(user, rows, quests, champions, random, nextId);
    assert offered[0] in r;
    NumOfferedZero(RowsOf(r, user.id));
  }

  /** Two row lists without internal clashes and without clashes between them concatenate to
      one without clashes. */
  lemma NoClashAppend(a: seq<UserQuest>, b: seq<UserQuest>)
    requires NoClash(a) && NoClash(b)
    requires forall x, y :: x in a && y in b ==> !Clash(x, y)
    ensures NoClash(a + b)
  {
    var s := a + b;
    forall i, j | 0 <= i < j < |s| ensures !Clash(s[i], s[j]) {
      if j < |a| {
        assert s[i] == a[i] && s[j] == a[j];
      } else if i >= |a| {
        assert s[i] == b[i - |a|] && s[j] == b[j - |a|];
      } else {
        assert s[i] in a && s[j] in b;
      }
    }
  }

  /** The rows of an offer are well formed: their quest exists, and they carry one objective
      per QuestObjective at progress 0, uncompleted. */
  lemma OfferRowsWellFormed(user: User, rows: seq<UserQuest>, quests: seq<Quest>, champions: seq<Champion>,
                            random: real, nextId: nat)
    requires 0.0 <= random < 1.0 && QuestIdsUnique(quests)
    ensures forall x :: x in OfferRows(user, rows, quests, champions, random, nextId) ==> RowWellFormed(x, quests)
  {
    var r := OfferRows(user, rows, quests, champions, random, nextId);
    if OfferAllowed(RowsOf(rows, user.id)) {
      var w := NewQuestWindow(user, rows, quests, champions, random);
      forall x | x in r ensures RowWellFormed(x, quests) {
        var k :| 0 <= k < |r| && r[k] == x;
        assert w[k] in w;
        FreshRowWellFormed(w[k], quests, nextId + k, user.id);
      }
    }
  }

  /** A fresh offer on a stored quest, with zero progress, is well formed. */
  lemma FreshRowWellFormed(q: Quest, quests: seq<Quest>, id: nat, userId: nat)
    requires q in quests && QuestIdsUnique(quests)
    ensures RowWellFormed(UserQuest(id, q.id, userId, false, false, None, ZeroProgress(q.objectives)), quests)
  {
    QuestByIdFinds(quests, q);
  }

  /** The rows of an offer clash neither with each other nor with the rows already stored. */
  lemma OfferRowsNoClash(user: User, rows: seq<UserQuest>, quests: seq<Quest>, champions: seq<Champion>,
                         random: real, nextId: nat)
    requires 0.0 <= random < 1.0
    requires RowsValid(rows, quests, nextId)
    ensures NoClash(rows + OfferRows(user, rows, quests, champions, random, nextId))
  {
    var r := OfferRows(user, rows, quests, champions, random, nextId);
    OfferRowsAreOffers(user, rows, quests, champions, random, nextId);
    forall x, y | x in rows && y in r ensures !Clash(x, y) {
      var k :| 0 <= k < |r| && r[k] == y;
      if x.userId == user.id {
        assert x in RowsOf(rows, user.id);
      }
    }
    NoClashAppend(rows, r);
  }

  /** An offer keeps the store invariant. */
  lemma OfferKeepsValid(user: User, rows: seq<UserQuest>, quests: seq<Quest>, champions: seq<Champion>,
                        random: real, nextId: nat)
    requires 0.0 <= random < 1.0
    requires RowsValid(rows, quests, nextId)
    ensures var r := OfferRows(user, rows, quests, champions, random, nextId);
            RowsValid(rows + r, quests, nextId + |r|)
  {
    var r := OfferRows(user, rows, quests, champions, random, nextId);
    OfferRowsAreOffers(user, rows, quests, champions, random, nextId);
    OfferRowsWellFormed(user, rows, quests, champions, random, nextId);
    OfferRowsNoClash(user, rows, quests, champions, random, nextId);
    forall x | x in rows + r ensures x.id < nextId + |r| {
      if x !in rows {
        var k :| 0 <= k < |r| && r[k] == x;
      }
    }
  }

  /** The window `getNewQuests` draws for a mage player from one quest on a mage champion. */
  lemma MageWindow(q: Quest, user: User, champions: seq<Champion>)
    requires q == Quest(1, 0, "bare", 5, "{}", []) && user == User(2, 20, false, true, false, false, false, false)
    requires champions == [Champion(5, "k", "n", Some(Mage), None)]
    ensures OfferAllowed(RowsOf([], user.id))
    ensures NewQuestWindow(user, [], [q], champions, 0.0) == [q]
  {
    var ids := EligibleChampionIds(champions, CreateRolesArray(user));
    assert 5 in ids by {
      assert champions[0] in champions && SuitsUser(champions[0], user);
      EligibleForUser(champions, user, 5);
    }
    assert RowsOf([], user.id) == [];
    var existing := QuestIdsOf(RowsOf([], user.id));
    assert existing == [];
    var cands := Candidates([q], existing, ids);
    assert q in cands;
    assert cands == [q];
  }

  /** The invariant promises completed ==> every goal reached, not the converse: completion
      is set only by an update that progresses the quest. An offer of a quest without
      QuestObjective rows is fully satisfied from the start and stays uncompleted, here as
      the offer `offerQuests` makes to a mage player. */
  lemma SatisfiedOfferNotCompleted()
    ensures var q := Quest(1, 0, "bare", 5, "{}", []);
            var user := User(2, 20, false, true, false, false, false, false);
            var r := OfferRows(user, [], [q], [Champion(5, "k", "n", Some(Mage), None)], 0.0, 0);
            && r == [UserQuest(0, 1, 2, false, false, None, [])]
            && RowsValid(r, [q], 1)
            && AllAtGoal(r[0].objectives, q.objectives) && !r[0].completed
  {
    var q := Quest(1, 0, "bare", 5, "{}", []);
    var user := User(2, 20, false, true, false, false, false, false);
    var champions := [Champion(5, "k", "n", Some(Mage), None)];
    MageWindow(q, user, champions);
    var r := OfferRows(user, [], [q], champions, 0.0, 0);
    var row := UserQuest(0, 1, 2, false, false, None, []);
    assert |r| == 1 && r[0] == row;
    assert r == [row];
    assert QuestById([q], 1) == Some(q);
    assert RowWellFormed(row, [q]);
  }

  /** The update of the scenario below: offer 2 (3 kills) reaches its goal on a 4-kill record
      and is completed, still inactive; offer 1 has no objectives and is completed too. */
  lemma OfferCompletedByUpdate(quests: seq<Quest>, rows: seq<UserQuest>, parts: seq<Participant>)
    requires quests == [Quest(1, 0, "a", 5, "{}", []),
                        Quest(2, 0, "b", 5, "{}", [QuestObjective(7, Objective(1, "kills", "Kills"), 0, 3)])]
    requires rows == [UserQuest(1, 1, 9, false, false, None, []),
                      UserQuest(2, 2, 9, false, false, None, [UserQuestObjective(7, 0)])]
    requires parts == [Participant(1, 5, map["kills" := 4])]
    ensures RowsValid(rows, quests, 3) && HasStats(parts, quests)
    ensures AdvanceAll(rows, 9, quests, parts)
            == [UserQuest(1, 1, 9, false, true, None, []),
                UserQuest(2, 2, 9, false, true, None, [UserQuestObjective(7, 3)])]
  {
    assert QuestById(quests, 1) == Some(quests[0]) && QuestById(quests, 2) == Some(quests[1]);
    assert parts[0] in parts;
    KillsRecordCompletes(rows[1], quests[1], parts);
    var after := AdvanceAll(rows, 9, quests, parts);
    assert after[0] == UserQuest(1, 1, 9, false, true, None, []);
  }

  /** The step of the scenario below on offer 2: a 4-kill record takes 0 of 3 kills to 3. */
  lemma KillsRecordCompletes(row: UserQuest, q: Quest, parts: seq<Participant>)
    requires q == Quest(2, 0, "b", 5, "{}", [QuestObjective(7, Objective(1, "kills", "Kills"), 0, 3)])
    requires row == UserQuest(2, 2, 9, false, false, None, [UserQuestObjective(7, 0)])
    requires parts == [Participant(1, 5, map["kills" := 4])]
    ensures CoversObjectives(parts, q.objectives)
    ensures AdvanceRow(row, q, parts) == UserQuest(2, 2, 9, false, true, None, [UserQuestObjective(7, 3)])
  {
    assert parts[0] in parts;
    assert Applicable(parts, 5) == parts by {
      assert Applicable([], 5) == [];
    }
    assert StatSum(parts, "kills") == 4 by {
      assert StatSum([], "kills") == 0;
    }
    assert AdvanceRow(row, q, parts).objectives == [UserQuestObjective(7, 3)];
  }

  /** Progress does not check `active`, so an offer on the champion of a progressed quest can
      be completed while still an offer; activating another offer then deletes it with the
      rest. Here offer 2 (3 kills) completes on a 4-kill record and is gone after offer 1 is
      activated. */
  lemma CompletedOfferDeletedOnActivation()
    ensures var kills := QuestObjective(7, Objective(1, "kills", "Kills"), 0, 3);
            var quests := [Quest(1, 0, "a", 5, "{}", []), Quest(2, 0, "b", 5, "{}", [kills])];
            var rows := [UserQuest(1, 1, 9, false, false, None, []),
                         UserQuest(2, 2, 9, false, false, None, [UserQuestObjective(7, 0)])];
            var parts := [Participant(1, 5, map["kills" := 4])];
            && RowsValid(rows, quests, 3) && HasStats(parts, quests)
            && var after := AdvanceAll(rows, 9, quests, parts);
               && after[1].completed && !after[1].active
               && forall x :: x in Activated(after, 9, 1, 3000) ==> x.questId != 2
  {
    var kills := QuestObjective(7, Objective(1, "kills", "Kills"), 0, 3);
    var quests := [Quest(1, 0, "a", 5, "{}", []), Quest(2, 0, "b", 5, "{}", [kills])];
    var rows := [UserQuest(1, 1, 9, false, false, None, []),
                 UserQuest(2, 2, 9, false, false, None, [UserQuestObjective(7, 0)])];
    var parts := [Participant(1, 5, map["kills" := 4])];
    OfferCompletedByUpdate(quests, rows, parts);
    var after := AdvanceAll(rows, 9, quests, parts);
    var b := after[1];
    var p := Patch(after, 9, 1, 3000);
    assert p[1] == b;
    assert forall x :: x in p ==> x == p[0] || x == b;
  }

  class QuestStore {
    /** Reference data, never written by the engine. */
    const quests: seq<Quest>
    const champions: seq<Champion>
    /** The UserQuest table, in store order, with the objectives of each row. */
    var userQuests: seq<UserQuest>
    /** The UserMatch table. */
    var ledger: set<UserMatch>
    /** The id the next inserted UserQuest row receives. */
    var nextId: nat

    ghost predicate Valid()
      reads this
    {
      RowsValid(userQuests, quests, nextId)
    }

    constructor (quests: seq<Quest>, champions: seq<Champion>)
      requires QuestIdsUnique(quests)
      ensures Valid()
      ensures this.quests == quests && this.champions == champions
      ensures userQuests == [] && ledger == {} && nextId == 0
    {
      this.quests := quests;
      this.champions := champions;
      userQuests := [];
      ledger := {};
      nextId := 0;
    }

    /** `offerQuests`: `getNewQuests` and, when it returns a list, `insertGraph` of it. The
        inserted rows are returned; every earlier row stays where it was. */
    method OfferQuests(user: User, random: real) returns (offered: seq<UserQuest>)
      requires Valid() && 0.0 <= random < 1.0
      modifies this
      ensures Valid()
      ensures offered == OfferRows(user, old(userQuests), quests, champions, random, old(nextId))
      ensures userQuests == old(userQuests) + offered
      ensures nextId == old(nextId) + |offered|
      ensures ledger == old(ledger)
    {
      var offer := GetNewQuests(user, userQuests, quests, champions, random);
      if offer.Some? {
        offered := Inserted(offer.value, nextId);
        assert offered == OfferRows(user, userQuests, quests, champions, random, nextId);
      } else {
        offered := [];
      }
      OfferKeepsValid(user, userQuests, quests, champions, random, nextId);
      userQuests := userQuests + offered;
      nextId := nextId + |offered|;
    }

    /** `activateQuest(userId, id)` at clock `now` (ms): the patched row when the user owns
        row `id` (`None` for the source's failed response), and the offers of the user gone. */
    method ActivateQuest(userId: nat, id: nat, now: nat) returns (activated: Option<UserQuest>)
      requires Valid()
      modifies this
      ensures Valid()
      ensures activated.Some? <==> exists x :: x in old(userQuests) && IsTarget(x, userId, id)
      ensures activated.Some? ==> exists x :: x in old(userQuests) && IsTarget(x, userId, id)
                                             && activated.value == Activate(x, TruncateToSecond(now))
      ensures userQuests == Activated(old(userQuests), userId, id, TruncateToSecond(now))
      ensures ledger == old(ledger) && nextId == old(nextId)
    {
      var date := TruncateToSecond(now);
      var patched := Patch(userQuests, userId, id, date);
      activated := FindRow(patched, userId, id);
      if activated.Some? {
        var k :| 0 <= k < |patched| && patched[k] == activated.value;
        assert userQuests[k] in userQuests;
      } else {
        forall x | x in userQuests ensures !IsTarget(x, userId, id) {
          var k :| 0 <= k < |userQuests| && userQuests[k] == x;
          assert patched[k] in patched;
        }
      }
      ActivationKeepsValid(userQuests, quests, nextId, userId, id, date);
      userQuests := DeleteOffers(patched, userId);
    }

    /** The objective loop of `updateQuests` for one row: add the summed statistic, clamp. */
    static method AdvanceObjectivesLoop(objs: seq<UserQuestObjective>, qos: seq<QuestObjective>,
                                           applicable: seq<Participant>)
      returns (r: seq<UserQuestObjective>)
      requires |objs| == |qos| && CoversObjectives(applicable, qos)
      ensures r == AdvanceObjectives(objs, qos, applicable)
    {
      r := objs;
      for j := 0 to |r|
        invariant |r| == |objs|
        invariant forall i | 0 <= i < j :: r[i] == AdvanceObjective(objs[i], qos[i], applicable)
        invariant forall i | j <= i < |r| :: r[i] == objs[i]
      {
        assert qos[j] in qos;
        var progress := r[j].progress + StatSum(applicable, qos[j].objective.key);
        if progress > qos[j].goal {
          progress := qos[j].goal;
        }
        r := r[j := r[j].(progress := progress)];
      }
    }

    /** The loop of `updateQuests` over the user's quests that progressed: each such row's
        objectives advance and its completed flag is set once every objective is at its goal. */
    static method AdvanceRowsLoop(before: seq<UserQuest>, userId: nat, quests: seq<Quest>, parts: seq<Participant>)
      returns (rows: seq<UserQuest>)
      requires forall x :: x in before ==> RowWellFormed(x, quests)
      requires HasStats(parts, quests)
      ensures rows == AdvanceAll(before, userId, quests, parts)
    {
      ghost var target := AdvanceAll(before, userId, quests, parts);
      rows := before;
      for k := 0 to |rows|
        invariant |rows| == |before| == |target|
        invariant forall i | 0 <= i < k :: rows[i] == target[i]
        invariant forall i | k <= i < |rows| :: rows[i] == before[i]
      {
        assert before[k] in before;
        if rows[k].userId == userId {
          var q := QuestOf(rows[k], quests);
          if Progresses(parts, q.championId) {
            var applicable := Applicable(parts, q.championId);
            var objs := AdvanceObjectivesLoop(rows[k].objectives, q.objectives, applicable);
            var done := rows[k].completed || AllAtGoal(objs, q.objectives);
            rows := rows[k := rows[k].(objectives := objs, completed := done)];
          }
        }
      }
    }

    /** `updateQuests` for `user`, given the provider's recent-match list and its game records
        by game id. `ok` is false where the source answers with status 500. */
    method UpdateQuests(user: User, recent: seq<MatchSummary>, provider: map<nat, Game>) returns (ok: bool)
      requires Valid() && GamesHaveStats(provider, quests)
      modifies this
      ensures Valid()
      ensures Outcome(userQuests, ledger, ok) == UpdateEffect(old(userQuests), old(ledger), quests, user, recent, provider)
      ensures nextId == old(nextId)
    {
      var valid := QualifyingMatches(recent, ledger, user.id, RowsOf(userQuests, user.id), quests);
      // The ledger insert is issued before the detail fetches and survives their failure.
      var recorded := RecordMatches(ledger, user.id, valid);
      var resolved := ResolveParticipants(valid, provider, user.accountId);
      if resolved.None? {
        ledger := recorded;
        return false;
      }
      var parts := resolved.value;
      ResolvedHaveStats(valid, provider, user.accountId, quests);
      var before := userQuests;
      var rows := AdvanceRowsLoop(before, user.id, quests, parts);
      AdvanceKeepsValid(before, user.id, quests, nextId, parts);
      ledger := recorded;
      userQuests := rows;
      ok := true;
    }
  }
}
