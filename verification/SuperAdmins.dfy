/**
 * Who may change whom among administrators. Requests are handled one after the other; emails are
 * stored trimmed and in lower case.
 */
module SuperAdmins {
  import opened Wrappers

  datatype Role = SuperAdmin | Compliance | Support | Risk | Finance

  /** `standardPermissions`: the stored permissions are the defaults of the role. */
  datatype Admin = Admin(
    email: string,
    role: Role,
    isActive: bool,
    createdById: Option<string>,
    standardPermissions: bool)

  /** The seeded administrator's email and all the emails configured as super administrators, it included. */
  datatype Config = Config(seededEmail: string, superEmails: set<string>)

  type Table = map<string, Admin>

  datatype Error = NotFound | Forbidden

  function Reconcile(config: Config, a: Admin): Admin {
    if a.email in config.superEmails && !(a.role == SuperAdmin && a.isActive && a.standardPermissions)
    then a.(role := SuperAdmin, isActive := true, createdById := None, standardPermissions := true)
    else a
  }

  /**
   * `findById`: every lookup reconciles a configured administrator, and provisions one from the users
   * table if need be.
   */
  function Load(config: Config, users: map<string, string>, t: Table, id: string): Table {
    if id in t then t[id := Reconcile(config, t[id])]
    else if id in users && users[id] in config.superEmails then t[id := Admin(users[id], SuperAdmin, true, None, true)]
    else t
  }

  predicate IsSeeded(config: Config, a: Admin) {
    a.role == SuperAdmin && a.createdById.None? && a.email == config.seededEmail
  }

  predicate MayModify(
    config: Config, actorId: string, actor: Admin, targetId: string, target: Admin, nextRole: Role, nextIsActive: bool)
  {
    && !(actorId == targetId && !nextIsActive)
    && var demoting := target.role == SuperAdmin && nextRole != SuperAdmin;
       var deactivating := target.role == SuperAdmin && !nextIsActive;
       !(targetId != actorId && (demoting || deactivating) && !IsSeeded(config, actor))
  }

  /** `permissions` says of an explicit list whether it holds the defaults of the role the target will have. */
  datatype Change = Change(role: Option<Role>, isActive: Option<bool>, permissions: Option<bool>)

  function NextRole(target: Admin, change: Change): Role {
    if change.role.Some? then change.role.value else target.role
  }

  function NextIsActive(target: Admin, change: Change): bool {
    if change.isActive.Some? then change.isActive.value else target.isActive
  }

  /** Without an explicit list, super administrators and changed roles get the defaults, others keep what they have. */
  function NextStandard(target: Admin, change: Change): bool {
    if change.permissions.Some? then change.permissions.value
    else if NextRole(target, change) == SuperAdmin || change.role.Some? then true
    else target.standardPermissions
  }

  /** The table once actor and target have been looked up. */
  function Loaded(config: Config, users: map<string, string>, t: Table, actorId: string, targetId: string): Table {
    Load(config, users, Load(config, users, t, actorId), targetId)
  }

  /** `updateAdmin`: the outcome and the table it leaves. */
  function Update(
    config: Config, users: map<string, string>, t: Table, actorId: string, targetId: string, change: Change)
    : (Option<Error>, Table)
  {
    var t1 := Load(config, users, t, actorId);
    if actorId !in t1 then (Some(NotFound), t1)
    else if t1[actorId].role != SuperAdmin then (Some(Forbidden), t1)
    else
      var t2 := Load(config, users, t1, targetId);
      if targetId !in t2 then (Some(NotFound), t2)
      else
        var target := t2[targetId];
        var role, isActive := NextRole(target, change), NextIsActive(target, change);
        if !MayModify(config, actorId, t1[actorId], targetId, target, role, isActive) then (Some(Forbidden), t2)
        else
          var changed :=
            target.(role := role, isActive := isActive, standardPermissions := NextStandard(target, change));
          (None, t2[targetId := changed])
  }

  /** `createAdmin`; the new id is chosen by the database. */
  function Create(
    config: Config, users: map<string, string>, t: Table, actorId: string, id: string, email: string, role: Role)
    : (Option<Error>, Table)
  {
    var t1 := Load(config, users, t, actorId);
    if actorId !in t1 then (Some(NotFound), t1)
    else if t1[actorId].role != SuperAdmin then (Some(Forbidden), t1)
    else (None, t1[id := Admin(email, role, true, Some(actorId), true)])
  }

  ghost predicate IsActiveSuper(t: Table, id: string) {
    id in t && t[id].role == SuperAdmin && t[id].isActive
  }

  ghost predicate SomeActiveSuper(t: Table) {
    exists id :: IsActiveSuper(t, id)
  }

  lemma LoadKeepsSupers(config: Config, users: map<string, string>, t: Table, id: string)
    ensures forall x :: IsActiveSuper(t, x) ==> IsActiveSuper(Load(config, users, t, id), x)
    ensures forall x :: x != id ==> (x in Load(config, users, t, id) <==> x in t)
    ensures forall x :: x != id && x in t ==> Load(config, users, t, id)[x] == t[x]
  {
  }

  /** A configured super administrator is an active one again after any lookup, whatever was done to its row. */
  lemma LookupHeals(config: Config, users: map<string, string>, t: Table, id: string)
    requires if id in t then t[id].email in config.superEmails else id in users && users[id] in config.superEmails
    ensures IsActiveSuper(Load(config, users, t, id), id)
  {
  }

  /**
   * A lookup makes a configured administrator a full super administrator, created by nobody; any other row
   * stays as it is, and only a configured user is given one.
   */
  lemma LoadSpec(config: Config, users: map<string, string>, t: Table, id: string)
    ensures var t' := Load(config, users, t, id);
            && (id in t && t[id].email in config.superEmails ==>
                  id in t' && t'[id].email == t[id].email && IsActiveSuper(t', id) && t'[id].standardPermissions
                  && (t'[id] != t[id] ==> t'[id].createdById.None?))
            && (id in t && t[id].email !in config.superEmails ==> t' == t)
            && (id !in t && id in users && users[id] in config.superEmails ==>
                  t' == t[id := Admin(users[id], SuperAdmin, true, None, true)])
            && (id !in t && !(id in users && users[id] in config.superEmails) ==> t' == t)
  {
    if id in t && t[id].email !in config.superEmails {
      assert t[id := t[id]] == t;
    }
  }

  /** The change takes rank or activity from a super administrator. */
  predicate Deposes(target: Admin, change: Change) {
    target.role == SuperAdmin && (NextRole(target, change) != SuperAdmin || !NextIsActive(target, change))
  }

  /** Who may make this change, once both have been looked up. */
  ghost predicate Allowed(config: Config, t: Table, actorId: string, targetId: string, change: Change)
    requires actorId in t && targetId in t
  {
    && t[actorId].role == SuperAdmin
    && (actorId == targetId ==> NextIsActive(t[targetId], change))
    && (actorId != targetId && Deposes(t[targetId], change) ==>
          t[actorId].createdById.None? && t[actorId].email == config.seededEmail)
  }

  /**
   * A change is accepted exactly when actor and target exist and the actor may make it: a super
   * administrator changes anyone, but does not deactivate itself, and only the seeded one deposes
   * another. It then takes effect as asked; refused, it leaves nothing but the lookups behind.
   */
  lemma UpdateSpec(
      config: Config, users: map<string, string>, t: Table, actorId: string, targetId: string, change: Change)
    ensures var (error, t') := Update(config, users, t, actorId, targetId, change);
            var t1, t2 := Load(config, users, t, actorId), Loaded(config, users, t, actorId, targetId);
            && (error.None? <==>
                  actorId in t1 && actorId in t2 && targetId in t2 && Allowed(config, t2, actorId, targetId, change))
            && (error == Some(NotFound) <==>
                  actorId !in t1 || (t1[actorId].role == SuperAdmin && targetId !in t2))
            && (error.Some? ==> t' == t1 || t' == t2)
            && (error.None? ==>
                  && t'.Keys == t2.Keys && (forall id :: id in t2 && id != targetId ==> t'[id] == t2[id])
                  && t'[targetId] == Changed(t2[targetId], change))
  {
    var t1 := Load(config, users, t, actorId);
    LoadSpec(config, users, t, actorId);
    LoadSpec(config, users, t1, targetId);
    LoadKeepsSupers(config, users, t, actorId);
    LoadKeepsSupers(config, users, t1, targetId);
    if actorId in t1 && actorId == targetId {
      LoadTwice(config, users, t, actorId);
    }
  }

  lemma LoadTwice(config: Config, users: map<string, string>, t: Table, id: string)
    ensures Load(config, users, Load(config, users, t, id), id) == Load(config, users, t, id)
  {
    var t1 := Load(config, users, t, id);
    if id in t1 {
      assert t1[id := t1[id]] == t1;
    }
  }

  /** The target with what the change asks for, and what it does not mention as before. */
  function Changed(target: Admin, change: Change): (r: Admin)
    ensures r.email == target.email && r.createdById == target.createdById
    ensures change.role.Some? ==> r.role == change.role.value
    ensures change.role.None? ==> r.role == target.role
    ensures change.isActive.Some? ==> r.isActive == change.isActive.value
    ensures change.isActive.None? ==> r.isActive == target.isActive
    ensures change.permissions.Some? ==> r.standardPermissions == change.permissions.value
    ensures change.permissions.None? && (change.role.Some? || target.role == SuperAdmin) ==> r.standardPermissions
    ensures change.permissions.None? && change.role.None? && target.role != SuperAdmin ==>
              r.standardPermissions == target.standardPermissions
  {
    Admin(
      target.email,
      if change.role.Some? then change.role.value else target.role,
      if change.isActive.Some? then change.isActive.value else target.isActive,
      target.createdById,
      match change.permissions
      case Some(standard) => standard
      case None => change.role.Some? || target.role == SuperAdmin || target.standardPermissions)
  }

  /** Creation is for super administrators, and gives the new one the role asked for and its creator. */
  lemma CreateSpec(
      config: Config, users: map<string, string>, t: Table, actorId: string, id: string, email: string, role: Role)
    ensures var (error, t') := Create(config, users, t, actorId, id, email, role);
            var t1 := Load(config, users, t, actorId);
            && (error.None? <==> actorId in t1 && t1[actorId].role == SuperAdmin)
            && (error == Some(NotFound) <==> actorId !in t1)
            && (error.Some? ==> t' == t1)
            && (error.None? ==>
                  && id in t' && t'[id].email == email && t'[id].role == role && t'[id].isActive
                  && t'[id].createdById == Some(actorId) && t'[id].standardPermissions
                  && !IsSeeded(config, t'[id])
                  && forall x :: x != id ==> (x in t' <==> x in t1) && (x in t1 ==> t'[x] == t1[x]))
  {
  }

  /** The one change that can leave no active super administrator: the last one gives up its own role. */
  ghost predicate LastOneSteppingDown(t: Table, actorId: string, targetId: string, change: Change) {
    && actorId == targetId && actorId in t
    && NextRole(t[targetId], change) != SuperAdmin
    && forall id :: IsActiveSuper(t, id) ==> id == actorId
  }

  /**
   * A change accepted from an active administrator leaves no active super administrator exactly when
   * the last one demotes itself.
   */
  lemma OnlySelfDemotionEmpties(
      config: Config, users: map<string, string>, t: Table, actorId: string, targetId: string, change: Change)
    requires Update(config, users, t, actorId, targetId, change).0.None?
    requires var t2 := Loaded(config, users, t, actorId, targetId); t2[actorId].isActive
    ensures !SomeActiveSuper(Update(config, users, t, actorId, targetId, change).1)
            <==> LastOneSteppingDown(Loaded(config, users, t, actorId, targetId), actorId, targetId, change)
  {
    var t1, t2 := Load(config, users, t, actorId), Loaded(config, users, t, actorId, targetId);
    var t' := Update(config, users, t, actorId, targetId, change).1;
    LoadKeepsSupers(config, users, t1, targetId);
    assert t2[actorId].role == SuperAdmin;
    assert IsActiveSuper(t2, actorId);
    if actorId != targetId {
      assert IsActiveSuper(t', actorId);
    } else if NextRole(t2[targetId], change) == SuperAdmin {
      assert IsActiveSuper(t', actorId);
    } else if id :| IsActiveSuper(t2, id) && id != actorId {
      assert IsActiveSuper(t', id);
    } else {
      assert forall id :: IsActiveSuper(t', id) ==> IsActiveSuper(t2, id);
    }
  }

  /**
   * Such a change is accepted, and two requests reach it: a configured user logs in and demotes itself.
   * Its next lookup restores it.
   */
  lemma SelfDemotionAccepted(config: Config, users: map<string, string>, id: string, change: Change)
    requires id in users && users[id] in config.superEmails
    requires change.role.Some? && change.role.value != SuperAdmin && change.isActive != Some(false)
    ensures var t := Load(config, users, map[], id);
            var (error, t') := Update(config, users, t, id, id, change);
            SomeActiveSuper(t) && error == None && !SomeActiveSuper(t') && SomeActiveSuper(Load(config, users, t', id))
  {
    var t := Load(config, users, map[], id);
    assert IsActiveSuper(t, id);
    assert Loaded(config, users, t, id, id) == t;
    LookupHeals(config, users, Update(config, users, t, id, id, change).1, id);
  }

  /** Nobody but the seeded super administrator takes that rank, or activity, from another. */
  lemma OnlySeededRemovesAnother(
      config: Config, users: map<string, string>, t: Table, actorId: string, targetId: string, change: Change,
      victim: string)
    requires victim != actorId && IsActiveSuper(t, victim)
    requires !IsActiveSuper(Update(config, users, t, actorId, targetId, change).1, victim)
    ensures victim == targetId && IsSeeded(config, Load(config, users, t, actorId)[actorId])
  {
    var t1 := Load(config, users, t, actorId);
    LoadKeepsSupers(config, users, t, actorId);
    LoadKeepsSupers(config, users, t1, targetId);
  }

  // ---- runs ----

  datatype Request =
    | Lookup(id: string)
    | Add(actor: string, id: string, email: string, newRole: Role)
    | Modify(actor: string, target: string, change: Change)

  /** The table after a request. */
  function Apply(config: Config, users: map<string, string>, t: Table, r: Request): Table {
    match r
    case Lookup(id) => Load(config, users, t, id)
    case Add(actor, id, email, role) => Create(config, users, t, actor, id, email, role).1
    case Modify(actor, target, change) => Update(config, users, t, actor, target, change).1
  }

  /** Acting administrators are active, new ids are new, and the last super administrator keeps its role. */
  ghost predicate Orderly(config: Config, users: map<string, string>, t: Table, r: Request) {
    match r
    case Lookup(_) => true
    case Add(actor, id, _, _) => id !in Load(config, users, t, actor)
    case Modify(actor, target, change) =>
      var t2 := Loaded(config, users, t, actor, target);
      && (actor in t2 ==> t2[actor].isActive)
      && !LastOneSteppingDown(t2, actor, target, change)
  }

  ghost predicate Run(config: Config, users: map<string, string>, states: seq<Table>, requests: seq<Request>) {
    && |states| == |requests| + 1
    && forall i :: 0 <= i < |requests| ==>
         Orderly(config, users, states[i], requests[i]) && states[i + 1] == Apply(config, users, states[i], requests[i])
  }

  lemma ApplyKeepsSome(config: Config, users: map<string, string>, t: Table, r: Request)
    requires SomeActiveSuper(t) && Orderly(config, users, t, r)
    ensures SomeActiveSuper(Apply(config, users, t, r))
  {
    var id :| IsActiveSuper(t, id);
    var t' := Apply(config, users, t, r);
    match r
    case Lookup(x) =>
      LoadKeepsSupers(config, users, t, x);
      assert IsActiveSuper(t', id);
    case Add(actor, newId, _, _) =>
      LoadKeepsSupers(config, users, t, actor);
      assert IsActiveSuper(t', id);
    case Modify(actor, target, change) =>
      if Update(config, users, t, actor, target, change).0.None? {
        OnlySelfDemotionEmpties(config, users, t, actor, target, change);
      } else {
        var t1 := Load(config, users, t, actor);
        LoadKeepsSupers(config, users, t, actor);
        LoadKeepsSupers(config, users, t1, target);
        assert IsActiveSuper(t', id);
      }
  }

  /** In every orderly run that begins with an active super administrator there is always one. */
  lemma {:induction false} AlwaysSomeActiveSuper(
      config: Config, users: map<string, string>, states: seq<Table>, requests: seq<Request>, i: nat)
    requires Run(config, users, states, requests) && i < |states| && SomeActiveSuper(states[0])
    ensures SomeActiveSuper(states[i])
  {
    if i > 0 {
      AlwaysSomeActiveSuper(config, users, states, requests, i - 1);
      ApplyKeepsSome(config, users, states[i - 1], requests[i - 1]);
    }
  }

  // ---- the service as an object ----

  /** The administrators table behind the service; each method is one request. */
  class AdminUsersService {
    const config: Config
    const users: map<string, string>
    var admins: Table

    constructor (config: Config, users: map<string, string>)
      ensures this.config == config && this.users == users && admins == map[]
    {
      this.config, this.users, admins := config, users, map[];
    }

    /** A row found is reconciled; a missing one is provisioned from a configured user. */
    method FindById(id: string) returns (admin: Option<Admin>)
      modifies this
      ensures admins == Load(config, users, old(admins), id)
      ensures admin == if id in admins then Some(admins[id]) else None
    {
      if id in admins {
        var current := admins[id];
        if current.email in config.superEmails
           && !(current.role == SuperAdmin && current.isActive && current.standardPermissions) {
          admins := admins[id := Admin(current.email, SuperAdmin, true, None, true)];
        } else {
          admins := admins[id := current];
        }
        return Some(admins[id]);
      }
      if id in users && users[id] in config.superEmails {
        admins := admins[id := Admin(users[id], SuperAdmin, true, None, true)];
        return Some(admins[id]);
      }
      admin := None;
    }

    method UpdateAdmin(adminId: string, change: Change, currentUserId: string) returns (error: Option<Error>)
      modifies this
      ensures (error, admins) == Update(config, users, old(admins), currentUserId, adminId, change)
      ensures forall victim ::
                victim != currentUserId && IsActiveSuper(old(admins), victim) && !IsActiveSuper(admins, victim) ==>
                  victim == adminId && IsSeeded(config, Load(config, users, old(admins), currentUserId)[currentUserId])
    {
      ghost var before := admins;
      var current := FindById(currentUserId);
      if current.None? {
        error := Some(NotFound);
      } else if current.value.role != SuperAdmin {
        error := Some(Forbidden);
      } else {
        var target := FindById(adminId);
        if target.None? {
          error := Some(NotFound);
        } else {
          var role, isActive := NextRole(target.value, change), NextIsActive(target.value, change);
          if MayModify(config, currentUserId, current.value, adminId, target.value, role, isActive) {
            admins := admins[adminId :=
              target.value.(
                role := role, isActive := isActive, standardPermissions := NextStandard(target.value, change))];
            error := None;
          } else {
            error := Some(Forbidden);
          }
        }
      }
      forall victim | victim != currentUserId && IsActiveSuper(before, victim) && !IsActiveSuper(admins, victim)
        ensures victim == adminId && IsSeeded(config, Load(config, users, before, currentUserId)[currentUserId])
      {
        OnlySeededRemovesAnother(config, users, before, currentUserId, adminId, change, victim);
      }
    }
  }
}
