/**
 * Who may do what in one workspace: roles and their three-state grants,
 * members, the administration calls on them, and the audit rows those write.
 * One service call is one step here.
 */
module Access {
  import opened Prelude

  type Id = nat
  type Key = string

  const ADMIN_ROLE := "Admin"
  const MANAGE_USERS := "setUsers"
  const SENSITIVE: set<Key> := {"regExport", "finRefund"}

  datatype Status = Active | Invited | Unconfirmed | Suspended

  datatype Member = Member(user: Id, email: string, roleId: Id, status: Status, deleted: bool)

  /** `true` granted, `false` refused, absent never offered. */
  datatype Role = Role(name: string, grants: map<Key, bool>)

  /** A permission-change row: which keys it says came and went, and whether it is flagged sensitive. */
  datatype AuditRow =
    | RoleCreated(role: string, granted: set<Key>, flagged: bool)
    | RoleChanged(role: string, granted: set<Key>, revoked: set<Key>, flagged: bool)
    | MemberMoved(member: Id, from: string, to: string, flagged: bool)

  datatype Workspace = Workspace(
    catalog: set<Key>, roles: map<Id, Role>, members: map<Id, Member>, audit: seq<AuditRow>)

  datatype Error = NotFound | Conflict | Forbidden

  function GrantedIn(role: Role): set<Key> {
    set k | k in role.grants && role.grants[k]
  }

  function Granted(w: Workspace, r: Id): set<Key> {
    if r in w.roles then GrantedIn(w.roles[r]) else {}
  }

  predicate HasAdminRole(w: Workspace, m: Id) {
    m in w.members && w.members[m].roleId in w.roles && w.roles[w.members[m].roleId].name == ADMIN_ROLE
  }

  /** The permission read: through Active memberships; it never looks at `deleted`. */
  predicate Reaches(w: Workspace, u: Id, m: Id, k: Key) {
    m in w.members && w.members[m].user == u && w.members[m].status == Active && k in Granted(w, w.members[m].roleId)
  }

  predicate Holds(w: Workspace, u: Id, k: Key) {
    exists m | m in w.members :: Reaches(w, u, m, k)
  }

  /** Is this membership an Active Admin? Asked without looking at `deleted`. */
  predicate IsActiveAdmin(w: Workspace, m: Id) {
    HasAdminRole(w, m) && w.members[m].status == Active
  }

  function ActiveAdmins(w: Workspace): set<Id> {
    set m | m in w.members && IsActiveAdmin(w, m) && !w.members[m].deleted
  }

  predicate IsActiveAdminUser(w: Workspace, u: Id) {
    exists m | m in ActiveAdmins(w) :: w.members[m].user == u
  }

  predicate MemberExists(w: Workspace, m: Id) {
    m in w.members && !w.members[m].deleted
  }

  predicate LastAdmin(w: Workspace, m: Id) {
    IsActiveAdmin(w, m) && |ActiveAdmins(w)| <= 1
  }

  /** Handing out access the actor does not hold, which only an Admin may. */
  predicate Escalates(w: Workspace, actor: Id, granting: set<Key>) {
    !IsActiveAdminUser(w, actor) && exists k | k in granting :: !Holds(w, actor, k)
  }

  function RolesGranting(w: Workspace, k: Key): set<Id> {
    set r | r in w.roles && k in Granted(w, r)
  }

  predicate Strands(w: Workspace, r: Id, keys: set<Key>) {
    MANAGE_USERS !in keys && r in RolesGranting(w, MANAGE_USERS) && |RolesGranting(w, MANAGE_USERS)| <= 1
  }

  /** A save decides about the whole catalog: chosen keys granted, every other one refused. */
  function Saved(grants: map<Key, bool>, keys: set<Key>, catalog: set<Key>): map<Key, bool> {
    map k | k in grants.Keys + keys + catalog :: if k in keys then true else if k in catalog then false else grants[k]
  }

  /** What a save records: the difference it makes, or nothing when it makes none. */
  function SaveAudit(role: string, before: set<Key>, after: set<Key>): Option<AuditRow> {
    if after - before == {} && before - after == {} then None
    else Some(RoleChanged(role, after - before, before - after, (after - before) * SENSITIVE != {}))
  }

  function CreateRole(w: Workspace, actor: Id, id: Id, name: string, keys: set<Key>): (Workspace, Option<Error>) {
    if Escalates(w, actor, keys) then (w, Some(Forbidden))
    else if exists r | r in w.roles :: w.roles[r].name == name then (w, Some(Conflict))
    else (w.(roles := w.roles[id := Role(name, Saved(map[], keys, w.catalog))],
             audit := w.audit + [RoleCreated(name, keys, keys * SENSITIVE != {})]), None)
  }

  function SetRolePermissions(w: Workspace, actor: Id, r: Id, keys: set<Key>): (Workspace, Option<Error>) {
    if Escalates(w, actor, keys) then (w, Some(Forbidden))
    else if Strands(w, r, keys) then (w, Some(Conflict))
    else if r !in w.roles then (w, Some(NotFound))
    else
      var row := SaveAudit(w.roles[r].name, Granted(w, r), keys);
      (w.(roles := w.roles[r := w.roles[r].(grants := Saved(w.roles[r].grants, keys, w.catalog))],
          audit := if row.Some? then w.audit + [row.value] else w.audit), None)
  }

  function ChangeMemberRole(w: Workspace, actor: Id, m: Id, r: Id): (Workspace, Option<Error>) {
    if !MemberExists(w, m) then (w, Some(NotFound))
    else if r !in w.roles then (w, Some(NotFound))
    else if Escalates(w, actor, Granted(w, r)) then (w, Some(Forbidden))
    else if w.roles[r].name != ADMIN_ROLE && LastAdmin(w, m) then (w, Some(Conflict))
    else if w.members[m].roleId == r then (w, None)
    else
      var from := w.members[m].roleId;
      var fromName := if from in w.roles then w.roles[from].name else "";
      var gained := (Granted(w, r) - Granted(w, from)) * SENSITIVE;
      (w.(members := w.members[m := w.members[m].(roleId := r)],
          audit := w.audit + [MemberMoved(m, fromName, w.roles[r].name, gained != {})]),
       None)
  }

  function SuspendMember(w: Workspace, m: Id): (Workspace, Option<Error>) {
    if !MemberExists(w, m) then (w, Some(NotFound))
    else if LastAdmin(w, m) then (w, Some(Conflict))
    else (w.(members := w.members[m := w.members[m].(status := Suspended)]), None)
  }

  function ReactivateMember(w: Workspace, m: Id): (Workspace, Option<Error>) {
    if !MemberExists(w, m) then (w, Some(NotFound))
    else (w.(members := w.members[m := w.members[m].(status := Active)]), None)
  }

  function RemoveMember(w: Workspace, m: Id): (Workspace, Option<Error>) {
    if !MemberExists(w, m) then (w, Some(NotFound))
    else if LastAdmin(w, m) then (w, Some(Conflict))
    else (w.(members := w.members[m := w.members[m].(status := Suspended, deleted := true)]), None)
  }

  predicate MemberOn(w: Workspace, m: Id, email: string) {
    MemberExists(w, m) && w.members[m].email == email
  }

  /** An address already invited is sent a fresh link and nothing changes; one that has joined is refused. */
  function InviteMember(w: Workspace, id: Id, user: Id, email: string, r: Id): (Workspace, Option<Error>) {
    if r !in w.roles then (w, Some(NotFound))
    else if exists m | m in w.members :: MemberOn(w, m, email) && w.members[m].status != Invited
    then (w, Some(Conflict))
    else if exists m | m in w.members :: MemberOn(w, m, email) then (w, None)
    else (w.(members := w.members[id := Member(user, email, r, Invited, false)]), None)
  }

  /** Acceptance looks for an Invited membership, and never at `deleted`. */
  function AcceptInvite(w: Workspace, m: Id): (Workspace, Option<Error>) {
    if m !in w.members || w.members[m].status != Invited then (w, Some(NotFound))
    else (w.(members := w.members[m := w.members[m].(status := Active)]), None)
  }

  const PERMISSION_CATALOG: set<Key> := {
    "evCreate", "evPublish", "evSpeakers", "evProgramView",
    "regView", "regCheckin", "regExport", "regManage",
    "finView", "finRefund", "finDiscount", "finManage",
    "setUsers", "setSettings", "setIntegrations"}

  datatype RoleSeed = RoleSeed(name: string, grants: set<Key>)

  const OWNER_ROLE := ADMIN_ROLE

  /** The roles every new workspace starts with. */
  const DEFAULT_ROLES: seq<RoleSeed> := [
    RoleSeed("Admin", PERMISSION_CATALOG),
    RoleSeed("Organizer",
             {"evCreate", "evPublish", "evSpeakers", "regView", "regCheckin", "regExport", "regManage",
              "finView", "finDiscount", "evProgramView"}),
    RoleSeed("Staff", {"regView", "regCheckin", "evProgramView"})]

  /** A role as it is first inserted: its grants, and no refusals. */
  function SeededRole(seed: RoleSeed): Role {
    Role(seed.name, map k | k in seed.grants :: true)
  }

  /** The first `n` default roles, on serial ids from `firstRole`. */
  function DefaultRoles(firstRole: Id, n: nat): (roles: map<Id, Role>)
    requires n <= |DEFAULT_ROLES|
    ensures forall id :: id in roles <==> firstRole <= id < firstRole + n
    ensures forall id | id in roles :: roles[id] == SeededRole(DEFAULT_ROLES[id - firstRole])
  {
    if n == 0 then map[] else DefaultRoles(firstRole, n - 1)[firstRole + n - 1 := SeededRole(DEFAULT_ROLES[n - 1])]
  }

  /** The owner's role is the first of them. */
  function IdsByName(firstRole: Id, n: nat): (ids: map<string, Id>)
    requires n <= |DEFAULT_ROLES|
    ensures n > 0 ==> OWNER_ROLE in ids && ids[OWNER_ROLE] == firstRole
  {
    if n == 0 then map[] else IdsByName(firstRole, n - 1)[DEFAULT_ROLES[n - 1].name := firstRole + n - 1]
  }

  /** A new workspace: the catalog, the default roles, and its owner Active on the owner's role. */
  function BootstrapWorkspace(firstRole: Id, membership: Id, owner: Id, email: string): Workspace {
    var ids := IdsByName(firstRole, 3);
    Workspace(PERMISSION_CATALOG, DefaultRoles(firstRole, 3),
              map[membership := Member(owner, email, ids[OWNER_ROLE], Active, false)], [])
  }

  /** The tables behind those calls, and the calls as they check and write. */
  class Administration {
    const catalog: set<Key>
    var roles: map<Id, Role>
    var members: map<Id, Member>
    var audit: seq<AuditRow>

    constructor Bootstrap(firstRole: Id, membership: Id, owner: Id, email: string)
      ensures State() == BootstrapWorkspace(firstRole, membership, owner, email)
    {
      var seeded: map<Id, Role>, idByName: map<string, Id> := map[], map[];
      for i := 0 to |DEFAULT_ROLES|
        invariant seeded == DefaultRoles(firstRole, i) && idByName == IdsByName(firstRole, i)
      {
        seeded := seeded[firstRole + i := SeededRole(DEFAULT_ROLES[i])];
        idByName := idByName[DEFAULT_ROLES[i].name := firstRole + i];
      }
      catalog := PERMISSION_CATALOG;
      roles := seeded;
      members := map[membership := Member(owner, email, idByName[OWNER_ROLE], Active, false)];
      audit := [];
    }

    ghost function State(): Workspace
      reads this
    {
      Workspace(catalog, roles, members, audit)
    }

    function Now(): (w: Workspace)
      reads this
      ensures w == State()
    {
      Workspace(catalog, roles, members, audit)
    }

    method GetPermissions(user: Id) returns (keys: set<Key>)
      ensures forall k :: k in keys <==> Holds(State(), user, k)
    {
      keys := {};
      var left := members.Keys;
      while left != {}
        invariant left <= members.Keys
        invariant forall k :: k in keys <==> exists m | m in members.Keys - left :: Reaches(State(), user, m, k)
        decreases |left|
      {
        var m :| m in left;
        ghost var w, seen := State(), members.Keys - left;
        ghost var before := keys;
        if members[m].user == user && members[m].status == Active {
          keys := keys + Granted(Now(), members[m].roleId);
        }
        left := left - {m};
        forall k ensures k in keys <==> exists x | x in members.Keys - left :: Reaches(w, user, x, k) {
          assert members.Keys - left == seen + {m};
          if k in keys && k !in before {
            assert Reaches(w, user, m, k);
          }
        }
      }
      forall k ensures k in keys <==> Holds(State(), user, k) {
        assert members.Keys - left == members.Keys;
      }
    }

    method AssertNoEscalation(actor: Id, granting: set<Key>) returns (refused: bool)
      ensures refused == Escalates(State(), actor, granting)
    {
      if IsActiveAdminUser(Now(), actor) {
        return false;
      }
      var held := GetPermissions(actor);
      refused := exists k | k in granting :: k !in held;
    }

    method SaveRolePermissions(r: Id, keys: set<Key>, row: Option<AuditRow>)
      requires r in roles
      modifies this`roles, this`audit
      ensures roles == old(roles)[r := old(roles)[r].(grants := Saved(old(roles)[r].grants, keys, catalog))]
      ensures audit == if row.Some? then old(audit) + [row.value] else old(audit)
    {
      var grants := roles[r].grants + (map k | k in keys :: true);
      grants := grants + (map k | k in catalog - keys :: false);
      assert grants == Saved(roles[r].grants, keys, catalog);
      roles := roles[r := roles[r].(grants := grants)];
      if row.Some? {
        audit := audit + [row.value];
      }
    }

    method CreateCustomRole(actor: Id, id: Id, name: string, keys: set<Key>) returns (error: Option<Error>)
      requires id !in roles
      modifies this`roles, this`audit
      ensures (State(), error) == CreateRole(old(State()), actor, id, name, keys)
    {
      var refused := AssertNoEscalation(actor, keys);
      if refused {
        return Some(Forbidden);
      }
      if exists r | r in roles :: roles[r].name == name {
        return Some(Conflict);
      }
      roles := roles[id := Role(name, map[])];
      SaveRolePermissions(id, keys, Some(RoleCreated(name, keys, keys * SENSITIVE != {})));
      assert roles == old(roles)[id := Role(name, Saved(map[], keys, catalog))];
      error := None;
    }

    method ReplacePermissions(actor: Id, r: Id, keys: set<Key>) returns (error: Option<Error>)
      modifies this`roles, this`audit
      ensures (State(), error) == SetRolePermissions(old(State()), actor, r, keys)
    {
      var refused := AssertNoEscalation(actor, keys);
      if refused {
        return Some(Forbidden);
      }
      if Strands(Now(), r, keys) {
        return Some(Conflict);
      }
      if r !in roles {
        return Some(NotFound);
      }
      SaveRolePermissions(r, keys, SaveAudit(roles[r].name, Granted(Now(), r), keys));
      error := None;
    }

    method MoveMember(actor: Id, m: Id, r: Id) returns (error: Option<Error>)
      modifies this`members, this`audit
      ensures (State(), error) == ChangeMemberRole(old(State()), actor, m, r)
    {
      if m !in members || members[m].deleted || r !in roles {
        return Some(NotFound);
      }
      var refused := AssertNoEscalation(actor, Granted(Now(), r));
      if refused {
        return Some(Forbidden);
      }
      if roles[r].name != ADMIN_ROLE && LastAdmin(Now(), m) {
        return Some(Conflict);
      }
      var from := members[m].roleId;
      if from == r {
        return None;
      }
      var gained := (Granted(Now(), r) - Granted(Now(), from)) * SENSITIVE;
      members := members[m := members[m].(roleId := r)];
      audit := audit + [MemberMoved(m, if from in roles then roles[from].name else "", roles[r].name, gained != {})];
      error := None;
    }

    method Suspend(m: Id) returns (error: Option<Error>)
      modifies this`members
      ensures (State(), error) == SuspendMember(old(State()), m)
    {
      if m !in members || members[m].deleted {
        return Some(NotFound);
      }
      if LastAdmin(Now(), m) {
        return Some(Conflict);
      }
      members := members[m := members[m].(status := Suspended)];
      error := None;
    }

    method Reactivate(m: Id) returns (error: Option<Error>)
      modifies this`members
      ensures (State(), error) == ReactivateMember(old(State()), m)
    {
      if m !in members || members[m].deleted {
        return Some(NotFound);
      }
      members := members[m := members[m].(status := Active)];
      error := None;
    }

    method Remove(m: Id) returns (error: Option<Error>)
      modifies this`members
      ensures (State(), error) == RemoveMember(old(State()), m)
    {
      if m !in members || members[m].deleted {
        return Some(NotFound);
      }
      if LastAdmin(Now(), m) {
        return Some(Conflict);
      }
      members := members[m := members[m].(status := Suspended, deleted := true)];
      error := None;
    }
  }
}
