/** Role eligibility: which roles a user prefers and which champions fit them. */
module Roles {
  import opened Wrappers
  import opened Schema

  /** The user's flag for `role`. */
  predicate Prefers(user: User, role: Role)
  {
    match role
    case Assassin => user.assassin
    case Marksman => user.marksman
    case Support => user.support
    case Fighter => user.fighter
    case Tank => user.tank
    case Mage => user.mage
  }

  /** The position at which `createRolesArray` pushes each role. */
  function PushOrder(role: Role): nat
  {
    match role
    case Assassin => 0
    case Marksman => 1
    case Support => 2
    case Fighter => 3
    case Tank => 4
    case Mage => 5
  }

  /** The order in which `createRolesArray` tests the six flags. */
  const FlagOrder: seq<Role> := [Assassin, Marksman, Support, Fighter, Tank, Mage]

  /** The roles of `order` whose flag is set, kept in the order of `order`. */
  function PreferredIn(user: User, order: seq<Role>): (roles: seq<Role>)
    requires forall i, j | 0 <= i < j < |order| :: PushOrder(order[i]) < PushOrder(order[j])
    ensures forall r :: r in roles <==> r in order && Prefers(user, r)
    ensures forall i, j | 0 <= i < j < |roles| :: PushOrder(roles[i]) < PushOrder(roles[j])
  {
    if order == [] then []
    else
      var rest := PreferredIn(user, order[1..]);
      assert forall r :: r in rest ==> PushOrder(order[0]) < PushOrder(r);
      if Prefers(user, order[0]) then [order[0]] + rest else rest
  }

  lemma EveryRoleTested()
    ensures forall r: Role :: r in FlagOrder
  {
    forall r: Role ensures r in FlagOrder {
      assert FlagOrder[PushOrder(r)] == r;
    }
  }

  /** `createRolesArray`: one push per flag that is set, in a fixed order. The result holds
      exactly the preferred roles, each once, in push order. */
  function CreateRolesArray(user: User): (roles: seq<Role>)
    ensures forall r :: r in roles <==> Prefers(user, r)
    ensures forall i, j | 0 <= i < j < |roles| :: PushOrder(roles[i]) < PushOrder(roles[j])
    ensures forall i, j | 0 <= i < j < |roles| :: roles[i] != roles[j]
  {
    EveryRoleTested();
    PreferredIn(user, FlagOrder)
  }

  /** A role slot that `whereIn(slot, roles)` selects (an empty slot matches nothing). */
  predicate SlotIn(slot: Option<Role>, roles: seq<Role>)
  {
    slot.Some? && slot.value in roles
  }

  /** `whereIn('role1', roles).orWhereIn('role2', roles)`. */
  predicate Eligible(c: Champion, roles: seq<Role>)
  {
    SlotIn(c.role1, roles) || SlotIn(c.role2, roles)
  }

  /** A champion one of whose role slots holds a role the user prefers. */
  predicate SuitsUser(c: Champion, user: User)
  {
    (c.role1.Some? && Prefers(user, c.role1.value)) || (c.role2.Some? && Prefers(user, c.role2.value))
  }

  /** The champion query of `getNewQuests` with its projection to ids. */
  function EligibleChampionIds(champions: seq<Champion>, roles: seq<Role>): (ids: seq<nat>)
    ensures forall id :: id in ids <==> exists c :: c in champions && c.id == id && Eligible(c, roles)
    ensures |ids| <= |champions|
  {
    if champions == [] then []
    else
      var init := champions[..|champions| - 1];
      var last := champions[|champions| - 1];
      assert champions == init + [last];
      EligibleChampionIds(init, roles) + (if Eligible(last, roles) then [last.id] else [])
  }

  /** Querying with the user's role list selects exactly the champions that suit the user. */
  lemma EligibleForUser(champions: seq<Champion>, user: User, id: nat)
    ensures id in EligibleChampionIds(champions, CreateRolesArray(user))
            <==> exists c :: c in champions && c.id == id && SuitsUser(c, user)
  {
    var roles := CreateRolesArray(user);
    forall c | c in champions ensures Eligible(c, roles) <==> SuitsUser(c, user) {
    }
  }
}
