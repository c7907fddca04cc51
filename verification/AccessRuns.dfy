/** What holds of a workspace over every serial run of administration calls. */
module AccessRuns {
  import opened Prelude
  import opened Access

  datatype Step =
    | Creating(actor: Id, id: Id, name: string, keys: set<Key>)
    | Saving(actor: Id, roleId: Id, keys: set<Key>)
    | Moving(actor: Id, member: Id, roleId: Id)
    | Suspending(member: Id)
    | Reactivating(member: Id)
    | Removing(member: Id)
    | Inviting(id: Id, user: Id, email: string, roleId: Id)
    | Accepting(member: Id)

  /** New rows take ids not in use, and keys come from the catalog. */
  predicate Allowed(w: Workspace, s: Step) {
    match s
    case Creating(_, id, _, keys) => id !in w.roles && keys <= w.catalog
    case Saving(_, _, keys) => keys <= w.catalog
    case Inviting(id, _, _, _) => id !in w.members
    case _ => true
  }

  function Do(w: Workspace, s: Step): (Workspace, Option<Error>) {
    match s
    case Creating(actor, id, name, keys) => CreateRole(w, actor, id, name, keys)
    case Saving(actor, r, keys) => SetRolePermissions(w, actor, r, keys)
    case Moving(actor, m, r) => ChangeMemberRole(w, actor, m, r)
    case Suspending(m) => SuspendMember(w, m)
    case Reactivating(m) => ReactivateMember(w, m)
    case Removing(m) => RemoveMember(w, m)
    case Inviting(id, user, email, r) => InviteMember(w, id, user, email, r)
    case Accepting(m) => AcceptInvite(w, m)
  }

  ghost predicate IsRun(w: Workspace, steps: seq<Step>)
    decreases |steps|
  {
    steps == [] || (Allowed(w, steps[0]) && IsRun(Do(w, steps[0]).0, steps[1..]))
  }

  function End(w: Workspace, steps: seq<Step>): Workspace
    decreases |steps|
  {
    if steps == [] then w else End(Do(w, steps[0]).0, steps[1..])
  }

  predicate NamesAreUnique(w: Workspace) {
    forall r, q | r in w.roles && q in w.roles && r != q :: w.roles[r].name != w.roles[q].name
  }

  predicate WithinCatalog(w: Workspace) {
    forall r | r in w.roles :: w.roles[r].grants.Keys <= w.catalog
  }

  predicate Sound(w: Workspace) {
    NamesAreUnique(w) && WithinCatalog(w)
  }

  // ---- The workspace can always still be administered ----

  predicate RemovedMeansSuspended(w: Workspace) {
    forall m | m in w.members :: w.members[m].deleted ==> w.members[m].status == Suspended
  }

  predicate Manageable(w: Workspace) {
    && ActiveAdmins(w) != {}
    && RolesGranting(w, MANAGE_USERS) != {}
    && RemovedMeansSuspended(w)
  }

  lemma AnotherElement(s: set<Id>, x: Id) returns (y: Id)
    requires |s| > 1
    ensures y in s && y != x
  {
    if s - {x} == {} {
      assert s <= {x};
      SubsetIsSmaller(s, {x});
      assert false;
    }
    y :| y in s - {x};
  }

  /** A refused last Admin aside, some Admin outlives any change to one member. */
  lemma AdminsSurvive(w: Workspace, m: Id, changed: Member)
    requires ActiveAdmins(w) != {} && RemovedMeansSuspended(w) && m in w.members
    requires LastAdmin(w, m) ==>
               changed.status == Active && !changed.deleted
               && changed.roleId in w.roles && w.roles[changed.roleId].name == ADMIN_ROLE
    ensures ActiveAdmins(w.(members := w.members[m := changed])) != {}
  {
    var after := w.(members := w.members[m := changed]);
    if LastAdmin(w, m) {
      assert m in ActiveAdmins(after);
    } else if IsActiveAdmin(w, m) {
      var other := AnotherElement(ActiveAdmins(w), m);
      assert other in ActiveAdmins(after);
    } else {
      var other :| other in ActiveAdmins(w);
      assert other in ActiveAdmins(after);
    }
  }

  lemma SavingSurvives(w: Workspace, actor: Id, r: Id, keys: set<Key>)
    requires Manageable(w) && keys <= w.catalog && MANAGE_USERS in w.catalog
    ensures Manageable(SetRolePermissions(w, actor, r, keys).0)
  {
    var (after, error) := SetRolePermissions(w, actor, r, keys);
    if error.None? {
      forall x | x in w.roles && x != r ensures Granted(after, x) == Granted(w, x) {
      }
      if MANAGE_USERS in keys {
        assert r in RolesGranting(after, MANAGE_USERS);
      } else {
        var other: Id;
        if r in RolesGranting(w, MANAGE_USERS) {
          other := AnotherElement(RolesGranting(w, MANAGE_USERS), r);
        } else {
          other :| other in RolesGranting(w, MANAGE_USERS);
        }
        assert other in RolesGranting(after, MANAGE_USERS);
      }
      var admin :| admin in ActiveAdmins(w);
      assert admin in ActiveAdmins(after);
    }
  }

  lemma CreatingSurvives(w: Workspace, actor: Id, id: Id, name: string, keys: set<Key>)
    requires Manageable(w) && id !in w.roles
    ensures Manageable(CreateRole(w, actor, id, name, keys).0)
  {
    var after := CreateRole(w, actor, id, name, keys).0;
    var admin :| admin in ActiveAdmins(w);
    assert admin in ActiveAdmins(after);
    var r :| r in RolesGranting(w, MANAGE_USERS);
    assert Granted(after, r) == Granted(w, r);
    assert r in RolesGranting(after, MANAGE_USERS);
  }

  /** Changing members leaves every role's grants as they were. */
  lemma MembersSurvive(w: Workspace, s: Step)
    requires Manageable(w) && Allowed(w, s) && !s.Creating? && !s.Saving?
    ensures Manageable(Do(w, s).0)
  {
    var after := Do(w, s).0;
    assert RolesGranting(after, MANAGE_USERS) == RolesGranting(w, MANAGE_USERS);
    if after != w {
      if s.Inviting? {
        var admin :| admin in ActiveAdmins(w);
        assert admin in ActiveAdmins(after);
      } else {
        AdminsSurvive(w, s.member, after.members[s.member]);
        assert ActiveAdmins(after) == ActiveAdmins(w.(members := after.members));
      }
    }
  }

  /**
   * From any workspace that can be managed - a bootstrapped one can - every
   * serial run keeps an Active, undeleted Admin, a role that can manage users,
   * and nobody removed but still Active.
   */
  lemma {:induction false} StaysManageable(w: Workspace, steps: seq<Step>)
    requires Manageable(w) && IsRun(w, steps) && MANAGE_USERS in w.catalog
    ensures Manageable(End(w, steps))
    decreases |steps|
  {
    if steps != [] {
      match steps[0] {
        case Creating(actor, id, name, keys) => CreatingSurvives(w, actor, id, name, keys);
        case Saving(actor, r, keys) => SavingSurvives(w, actor, r, keys);
        case _ => MembersSurvive(w, steps[0]);
      }
      StaysManageable(Do(w, steps[0]).0, steps[1..]);
    }
  }

  lemma SeedsAreSound()
    ensures forall i, j | 0 <= i < j < |DEFAULT_ROLES| :: DEFAULT_ROLES[i].name != DEFAULT_ROLES[j].name
    ensures forall i | 0 <= i < |DEFAULT_ROLES| :: DEFAULT_ROLES[i].grants <= PERMISSION_CATALOG
  {
    assert |DEFAULT_ROLES[0].name| == 5 && |DEFAULT_ROLES[1].name| == 9;
    assert DEFAULT_ROLES[0].name[0] == 'A' && DEFAULT_ROLES[2].name[0] == 'S';
  }

  /** Every role of a new workspace has its own name, and grants only keys of the catalog. */
  lemma BootstrapIsSound(firstRole: Id, membership: Id, owner: Id, email: string)
    ensures Sound(BootstrapWorkspace(firstRole, membership, owner, email))
  {
    SeedsAreSound();
    var w := BootstrapWorkspace(firstRole, membership, owner, email);
    forall r | r in w.roles
      ensures w.roles[r].name == DEFAULT_ROLES[r - firstRole].name && w.roles[r].grants.Keys <= w.catalog
    {
    }
  }

  lemma OwnerHasTheFirstRole(firstRole: Id, membership: Id, owner: Id, email: string)
    ensures var w := BootstrapWorkspace(firstRole, membership, owner, email);
            && w.members == map[membership := Member(owner, email, firstRole, Active, false)]
            && HasAdminRole(w, membership) && Granted(w, firstRole) == w.catalog
  {
  }

  /** Sign-up leaves the owner an Admin who holds every key. */
  lemma BootstrapIsManageable(firstRole: Id, membership: Id, owner: Id, email: string)
    ensures var w := BootstrapWorkspace(firstRole, membership, owner, email);
            && Manageable(w) && MANAGE_USERS in w.catalog
            && (forall k | k in w.catalog :: Holds(w, owner, k))
  {
    OwnerHasTheFirstRole(firstRole, membership, owner, email);
    var w := BootstrapWorkspace(firstRole, membership, owner, email);
    assert membership in ActiveAdmins(w);
    assert firstRole in RolesGranting(w, MANAGE_USERS);
    forall k | k in w.catalog ensures Holds(w, owner, k) {
      assert Reaches(w, owner, membership, k);
    }
  }

  /** So every serial run on a workspace somebody signed up keeps it manageable. */
  lemma SignedUpStaysManageable(firstRole: Id, membership: Id, owner: Id, email: string, steps: seq<Step>)
    requires IsRun(BootstrapWorkspace(firstRole, membership, owner, email), steps)
    ensures Manageable(End(BootstrapWorkspace(firstRole, membership, owner, email), steps))
  {
    BootstrapIsManageable(firstRole, membership, owner, email);
    StaysManageable(BootstrapWorkspace(firstRole, membership, owner, email), steps);
  }

  /** So the permission read, which never tests `deleted`, gives a removed member nothing, for ever. */
  lemma RemovedMembersReachNothing(w: Workspace, steps: seq<Step>, m: Id, u: Id, k: Key)
    requires Manageable(w) && IsRun(w, steps) && MANAGE_USERS in w.catalog
    requires m in End(w, steps).members && End(w, steps).members[m].deleted
    ensures !Reaches(End(w, steps), u, m, k)
  {
    StaysManageable(w, steps);
  }

  // ---- Nobody hands out access they do not hold ----

  predicate Grants(s: Step, group: set<Id>) {
    (s.Creating? || s.Saving? || s.Moving?) && s.actor in group
  }

  /** None of the group holds the Admin role, in any state of the run. */
  ghost predicate NeverAdmins(w: Workspace, steps: seq<Step>, group: set<Id>)
    decreases |steps|
  {
    && (forall u | u in group :: !IsActiveAdminUser(w, u))
    && (steps != [] ==> NeverAdmins(Do(w, steps[0]).0, steps[1..], group))
  }

  predicate GroupHolds(w: Workspace, group: set<Id>, k: Key) {
    exists u | u in group :: Holds(w, u, k)
  }

  /** One step by somebody who is not an Admin newly gives any role, or any person, only keys they hold. */
  lemma StepGivesOnlyWhatIsHeld(w: Workspace, s: Step, r: Id, u: Id, k: Key)
    requires Allowed(w, s) && (s.Creating? || s.Saving? || s.Moving?) && !IsActiveAdminUser(w, s.actor)
    ensures var after := Do(w, s).0;
            && (k in Granted(after, r) && k !in Granted(w, r) ==> Holds(w, s.actor, k))
            && (Holds(after, u, k) && !Holds(w, u, k) ==> Holds(w, s.actor, k))
  {
    var after := Do(w, s).0;
    if Holds(after, u, k) && !Holds(w, u, k) {
      var m :| m in after.members && Reaches(after, u, m, k);
      assert m in w.members;
      assert !Reaches(w, u, m, k);
    }
  }

  /**
   * No serial run of role and membership changes by a group without an Admin
   * among them ever widens what the group holds between them.
   */
  lemma {:induction false} NoEscalation(w: Workspace, steps: seq<Step>, group: set<Id>, k: Key)
    requires IsRun(w, steps) && NeverAdmins(w, steps, group)
    requires forall s | s in steps :: Grants(s, group)
    ensures GroupHolds(End(w, steps), group, k) ==> GroupHolds(w, group, k)
    decreases |steps|
  {
    if steps != [] {
      var s, after := steps[0], Do(w, steps[0]).0;
      assert s in steps && forall x | x in steps[1..] :: x in steps;
      NoEscalation(after, steps[1..], group, k);
      if u :| u in group && Holds(after, u, k) {
        StepGivesOnlyWhatIsHeld(w, s, 0, u, k);
      }
    }
  }

  // ---- The audit trail tells the whole story of every role ----

  /** What one row adds to a reader's account of each role's grants, by name. */
  function ReadRow(told: map<string, set<Key>>, row: AuditRow): map<string, set<Key>> {
    match row
    case RoleCreated(role, granted, _) => told[role := granted]
    case RoleChanged(role, granted, revoked, _) =>
      told[role := (if role in told then told[role] else {}) + granted - revoked]
    case MemberMoved(_, _, _, _) => told
  }

  function Replay(start: map<string, set<Key>>, rows: seq<AuditRow>): map<string, set<Key>> {
    if rows == [] then start else ReadRow(Replay(start, rows[..|rows| - 1]), rows[|rows| - 1])
  }

  /** The rows a step wrote. */
  function Written(before: Workspace, after: Workspace): seq<AuditRow> {
    if |before.audit| <= |after.audit| then after.audit[|before.audit|..] else []
  }

  predicate Tells(told: map<string, set<Key>>, w: Workspace) {
    forall r | r in w.roles :: w.roles[r].name in told && told[w.roles[r].name] == Granted(w, r)
  }

  lemma SavedGrants(grants: map<Key, bool>, keys: set<Key>, catalog: set<Key>, name: string)
    requires keys <= catalog && grants.Keys <= catalog
    ensures GrantedIn(Role(name, Saved(grants, keys, catalog))) == keys
    ensures Saved(grants, keys, catalog).Keys == catalog
  {
  }

  /** At most one row more, and a reader who knew the grants before it knows them after it. */
  ghost predicate KeepsTelling(told: map<string, set<Key>>, w: Workspace, after: Workspace) {
    || (after.audit == w.audit && Tells(told, after))
    || (&& |after.audit| > |w.audit|
        && after.audit == w.audit + [after.audit[|w.audit|]]
        && Tells(ReadRow(told, after.audit[|w.audit|]), after))
  }

  lemma CreatingIsTold(w: Workspace, s: Step, told: map<string, set<Key>>)
    requires s.Creating? && Allowed(w, s) && Sound(w) && Tells(told, w)
    ensures Sound(Do(w, s).0) && KeepsTelling(told, w, Do(w, s).0)
  {
    SavedGrants(map[], s.keys, w.catalog, s.name);
    var after := Do(w, s).0;
    assert forall r | r in w.roles :: Granted(after, r) == Granted(w, r);
    if after != w {
      assert after.audit == w.audit + [RoleCreated(s.name, s.keys, s.keys * SENSITIVE != {})];
    }
  }

  lemma DiffRestores(before: set<Key>, keys: set<Key>)
    ensures before + (keys - before) - (before - keys) == keys
    ensures keys - before == {} && before - keys == {} <==> keys == before
  {
  }

  /** This role with the keys chosen, under its name, and the others as they were. */
  ghost predicate OnlyRegrants(w: Workspace, after: Workspace, r: Id, keys: set<Key>) {
    && after.roles.Keys == w.roles.Keys
    && (forall x | x in w.roles :: after.roles[x].name == w.roles[x].name)
    && (forall x | x in w.roles :: Granted(after, x) == if x == r then keys else Granted(w, x))
  }

  lemma SavedRole(w: Workspace, actor: Id, r: Id, keys: set<Key>)
    requires Sound(w) && keys <= w.catalog && SetRolePermissions(w, actor, r, keys).1.None?
    ensures Sound(SetRolePermissions(w, actor, r, keys).0)
    ensures r in w.roles && OnlyRegrants(w, SetRolePermissions(w, actor, r, keys).0, r, keys)
  {
    SavedGrants(w.roles[r].grants, keys, w.catalog, w.roles[r].name);
  }

  /** A reader who adds the difference to what they knew knows what the role grants now. */
  lemma DifferenceIsTold(
      w: Workspace, after: Workspace, r: Id, keys: set<Key>, told: map<string, set<Key>>, row: AuditRow)
    requires r in w.roles && NamesAreUnique(w) && Tells(told, w) && OnlyRegrants(w, after, r, keys)
    requires row.RoleChanged? && row.role == w.roles[r].name
    requires row.granted == keys - Granted(w, r) && row.revoked == Granted(w, r) - keys
    ensures Tells(ReadRow(told, row), after)
    ensures keys == Granted(w, r) ==> Tells(told, after)
  {
    DiffRestores(Granted(w, r), keys);
  }

  lemma SavingIsTold(w: Workspace, s: Step, told: map<string, set<Key>>)
    requires s.Saving? && Allowed(w, s) && Sound(w) && Tells(told, w)
    ensures Sound(Do(w, s).0) && KeepsTelling(told, w, Do(w, s).0)
  {
    var (after, error) := SetRolePermissions(w, s.actor, s.roleId, s.keys);
    if error.None? {
      SavedRole(w, s.actor, s.roleId, s.keys);
      var before := Granted(w, s.roleId);
      var gained := s.keys - before;
      var row := RoleChanged(w.roles[s.roleId].name, gained, before - s.keys, gained * SENSITIVE != {});
      DiffRestores(before, s.keys);
      DifferenceIsTold(w, after, s.roleId, s.keys, told, row);
      assert after.audit == if s.keys == before then w.audit else w.audit + [row];
    }
  }

  lemma MovingIsTold(w: Workspace, s: Step, told: map<string, set<Key>>)
    requires !s.Creating? && !s.Saving? && Allowed(w, s) && Sound(w) && Tells(told, w)
    ensures Sound(Do(w, s).0) && KeepsTelling(told, w, Do(w, s).0)
  {
    var after := Do(w, s).0;
    assert after.roles == w.roles && after.catalog == w.catalog;
    assert forall r | r in w.roles :: Granted(after, r) == Granted(w, r);
  }

  /** Whatever a step does, the trail goes on telling every role's grants. */
  lemma StepIsTold(w: Workspace, s: Step, told: map<string, set<Key>>)
    requires Allowed(w, s) && Sound(w) && Tells(told, w)
    ensures Sound(Do(w, s).0) && KeepsTelling(told, w, Do(w, s).0)
  {
    if s.Creating? {
      CreatingIsTold(w, s, told);
    } else if s.Saving? {
      SavingIsTold(w, s, told);
    } else {
      MovingIsTold(w, s, told);
    }
  }

  lemma {:induction false} RowsReplayed(
      w: Workspace, after: Workspace, start: map<string, set<Key>>, rows: seq<AuditRow>)
    requires KeepsTelling(Replay(start, rows), w, after)
    ensures w.audit <= after.audit && Tells(Replay(start, rows + Written(w, after)), after)
  {
    if after.audit == w.audit {
      assert rows + Written(w, after) == rows;
    } else {
      var row := after.audit[|w.audit|];
      assert rows + Written(w, after) == rows + [row];
      assert (rows + [row])[..|rows|] == rows;
    }
  }

  /**
   * Replaying the trail written by any serial run onto the grants the
   * workspace started with gives every role exactly the grants it has now.
   */
  lemma {:induction false} TrailReproducesGrants(
      w: Workspace, steps: seq<Step>, start: map<string, set<Key>>, rows: seq<AuditRow>)
    requires IsRun(w, steps) && Sound(w) && Tells(Replay(start, rows), w)
    ensures w.audit <= End(w, steps).audit
    ensures Tells(Replay(start, rows + Written(w, End(w, steps))), End(w, steps))
    decreases |steps|
  {
    if steps == [] {
      assert rows + Written(w, w) == rows;
    } else {
      var after, end := Do(w, steps[0]).0, End(w, steps);
      StepIsTold(w, steps[0], Replay(start, rows));
      RowsReplayed(w, after, start, rows);
      var more := rows + Written(w, after);
      TrailReproducesGrants(after, steps[1..], start, more);
      WrittenJoins(rows, w, after, end);
    }
  }

  lemma WrittenJoins(rows: seq<AuditRow>, a: Workspace, b: Workspace, c: Workspace)
    requires a.audit <= b.audit <= c.audit
    ensures a.audit <= c.audit && rows + Written(a, b) + Written(b, c) == rows + Written(a, c)
  {
  }

  /** What the roles editor shows of a role: decided one way, the other, or never asked. */
  datatype GrantStates = GrantStates(granted: set<Key>, neverOffered: set<Key>)

  function RoleGrantStates(catalog: set<Key>, grants: map<Key, bool>): GrantStates {
    GrantStates((set k | k in grants && grants[k]), catalog - grants.Keys)
  }

  lemma NewlySensitive(before: set<Key>, keys: set<Key>)
    ensures (keys - before) * SENSITIVE != {} <==> exists k | k in SENSITIVE :: k in keys && k !in before
  {
    var given := (keys - before) * SENSITIVE;
    if k :| k in SENSITIVE && k in keys && k !in before {
      assert k in given;
    }
    if k :| k in given {
      assert k in SENSITIVE && k in keys && k !in before;
    }
  }

  /**
   * A save leaves no open question: the catalog splits exactly into the keys
   * chosen and the keys refused. It writes an audit row exactly when it changed
   * a grant, and that row is flagged exactly when it newly gave a sensitive key.
   */
  lemma SaveDecidesEverything(w: Workspace, actor: Id, r: Id, keys: set<Key>)
    requires WithinCatalog(w) && keys <= w.catalog && r in w.roles
    ensures var (after, error) := SetRolePermissions(w, actor, r, keys);
            error.None? ==>
              && RoleGrantStates(w.catalog, after.roles[r].grants) == GrantStates(keys, {})
              && (forall k | k in w.catalog - keys :: k in after.roles[r].grants && !after.roles[r].grants[k])
              && (after.audit == w.audit <==> Granted(w, r) == keys)
              && (after.audit != w.audit ==>
                    && |after.audit| == |w.audit| + 1
                    && (after.audit[|w.audit|].flagged <==>
                          exists k | k in SENSITIVE :: k in keys && k !in Granted(w, r)))
  {
    SavedGrants(w.roles[r].grants, keys, w.catalog, w.roles[r].name);
    var (after, error) := SetRolePermissions(w, actor, r, keys);
    if error.None? {
      var before := Granted(w, r);
      assert after.roles[r].grants.Keys == w.catalog;
      DiffRestores(before, keys);
      NewlySensitive(before, keys);
    }
  }
}
