/** Activation (`activateQuest`): patch the chosen row active with an activation date, then
    delete every offer (inactive row) of the user. */
module Activation {
  import opened Wrappers
  import opened Schema

  /** The stored activation date: `new Date().toUTCString()` keeps whole seconds only, so
      `Date.parse` reads back the clock `now` (ms) truncated to its second. */
  function TruncateToSecond(now: nat): (t: nat)
    ensures t <= now < t + 1000
    ensures t % 1000 == 0
  {
    now / 1000 * 1000
  }

  /** Row `x` is the target of `patchAndFetchById(id, …)` under `where('userId', userId)`. */
  predicate IsTarget(x: UserQuest, userId: nat, id: nat)
  {
    x.id == id && x.userId == userId
  }

  /** The patch `{ active: true, activationDate }` applied to one row. */
  function Activate(x: UserQuest, date: int): (r: UserQuest)
    ensures r.active && r.activationDate == Some(date)
    ensures r.(active := x.active, activationDate := x.activationDate) == x
  {
    x.(active := true, activationDate := Some(date))
  }

  /** The update query: the target row is patched, every other row is left as it is. */
  function Patch(rows: seq<UserQuest>, userId: nat, id: nat, date: int): (r: seq<UserQuest>)
    ensures |r| == |rows|
    ensures forall k | 0 <= k < |rows| ::
              && r[k].(active := rows[k].active, activationDate := rows[k].activationDate) == rows[k]
              && (IsTarget(rows[k], userId, id) ==> r[k].active && r[k].activationDate == Some(date))
              && (!IsTarget(rows[k], userId, id) ==> r[k] == rows[k])
  {
    seq(|rows|, k requires 0 <= k < |rows| =>
      if IsTarget(rows[k], userId, id) then Activate(rows[k], date) else rows[k])
  }

  /** The fetch after the patch: the first row that is the target, if any. */
  function FindRow(rows: seq<UserQuest>, userId: nat, id: nat): (r: Option<UserQuest>)
    ensures r.Some? ==> r.value in rows && IsTarget(r.value, userId, id)
    ensures r.None? ==> forall x :: x in rows ==> !IsTarget(x, userId, id)
  {
    if rows == [] then None
    else if IsTarget(rows[0], userId, id) then Some(rows[0])
    else FindRow(rows[1..], userId, id)
  }

  /** The delete query `where userId = userId and active = false`. */
  function DeleteOffers(rows: seq<UserQuest>, userId: nat): (r: seq<UserQuest>)
    ensures forall x :: x in r <==> x in rows && (x.userId != userId || x.active)
    ensures |r| <= |rows|
  {
    if rows == [] then []
    else
      var init := rows[..|rows| - 1];
      var last := rows[|rows| - 1];
      assert rows == init + [last];
      DeleteOffers(init, userId) + (if last.userId != userId || last.active then [last] else [])
  }

  /** The store after `activateQuest(userId, id)` at activation date `date`. The delete runs
      whether or not the patch found its target. */
  function Activated(rows: seq<UserQuest>, userId: nat, id: nat, date: int): (r: seq<UserQuest>)
    ensures |r| <= |rows|
    ensures forall x :: x in r && x.userId == userId ==> x.active
    ensures forall x :: x in rows && x.userId != userId ==> x in r
  {
    DeleteOffers(Patch(rows, userId, id, date), userId)
  }

  /** What activation does to the user's rows: the target (when the user owns it) is active
      with the new date; no row of the user is left inactive; every row that was already
      active and is not the target survives unchanged; the only new row is the patched target. */
  lemma ActivationEffect(rows: seq<UserQuest>, userId: nat, id: nat, date: int)
    ensures var r := Activated(rows, userId, id, date);
            && (forall x :: x in rows && IsTarget(x, userId, id) ==> Activate(x, date) in r)
            && (forall x :: x in r && x.userId == userId ==> x.active)
            && (forall x :: x in rows && x.active && !IsTarget(x, userId, id) ==> x in r)
            && (forall x :: x in r ==> x in rows || exists y :: y in rows && IsTarget(y, userId, id) && x == Activate(y, date))
  {
    var p := Patch(rows, userId, id, date);
    forall x | x in rows ensures (if IsTarget(x, userId, id) then Activate(x, date) else x) in p {
      var k :| 0 <= k < |rows| && rows[k] == x;
      assert p[k] == (if IsTarget(x, userId, id) then Activate(x, date) else x);
    }
    forall x | x in p ensures x in rows || exists y :: y in rows && IsTarget(y, userId, id) && x == Activate(y, date) {
      var k :| 0 <= k < |p| && p[k] == x;
      assert rows[k] in rows;
    }
  }

  /** Rows of every other user are untouched, in order: the patch is confined to `userId`'s
      rows and the delete keeps every row of other users. */
  lemma {:induction false} ActivationSparesOthers(rows: seq<UserQuest>, userId: nat, id: nat, date: int, other: nat)
    requires other != userId
    ensures RowsOf(Activated(rows, userId, id, date), other) == RowsOf(rows, other)
  {
    PatchSparesOthers(rows, userId, id, date, other);
    DeleteSparesOthers(Patch(rows, userId, id, date), userId, other);
  }

  lemma {:induction false} PatchSparesOthers(rows: seq<UserQuest>, userId: nat, id: nat, date: int, other: nat)
    requires other != userId
    ensures RowsOf(Patch(rows, userId, id, date), other) == RowsOf(rows, other)
  {
    if rows != [] {
      var init := rows[..|rows| - 1];
      var p := Patch(rows, userId, id, date);
      assert p[..|rows| - 1] == Patch(init, userId, id, date);
      PatchSparesOthers(init, userId, id, date, other);
      assert p[|rows| - 1].userId == other <==> rows[|rows| - 1].userId == other;
      assert p[|rows| - 1].userId == other ==> p[|rows| - 1] == rows[|rows| - 1];
    }
  }

  lemma {:induction false} DeleteSparesOthers(rows: seq<UserQuest>, userId: nat, other: nat)
    requires other != userId
    ensures RowsOf(DeleteOffers(rows, userId), other) == RowsOf(rows, other)
  {
    if rows != [] {
      var init := rows[..|rows| - 1];
      var last := rows[|rows| - 1];
      DeleteSparesOthers(init, userId, other);
      var d := DeleteOffers(init, userId);
      assert rows == init + [last];
      RowsOfSnoc(init, last, other);
      if last.userId != userId || last.active {
        assert DeleteOffers(rows, userId) == d + [last];
        RowsOfSnoc(d, last, other);
      } else {
        assert DeleteOffers(rows, userId) == d;
      }
    }
  }

  /** Activation keeps the store invariant: the patch changes neither keys nor objectives, and
      deleting rows cannot create a clash. */
  lemma ActivationKeepsValid(rows: seq<UserQuest>, quests: seq<Quest>, nextId: nat, userId: nat, id: nat, date: int)
    requires RowsValid(rows, quests, nextId)
    ensures RowsValid(Activated(rows, userId, id, date), quests, nextId)
  {
    var p := Patch(rows, userId, id, date);
    assert forall k | 0 <= k < |rows| :: p[k].id == rows[k].id && p[k].userId == rows[k].userId
                                      && p[k].questId == rows[k].questId;
    forall x | x in p ensures x.id < nextId && RowWellFormed(x, quests) {
      var k :| 0 <= k < |p| && p[k] == x;
      assert rows[k] in rows;
    }
    DeleteKeepsNoClash(p, userId);
  }

  lemma {:induction false} DeleteKeepsNoClash(rows: seq<UserQuest>, userId: nat)
    requires NoClash(rows)
    ensures NoClash(DeleteOffers(rows, userId))
  {
    if rows != [] {
      var init := rows[..|rows| - 1];
      var last := rows[|rows| - 1];
      assert rows == init + [last];
      NoClashSnoc(init, last);
      DeleteKeepsNoClash(init, userId);
      if last.userId != userId || last.active {
        NoClashSnoc(DeleteOffers(init, userId), last);
      }
    }
  }
}
