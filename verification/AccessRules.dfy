/**
 * What each administration call tells and does, one call at a time: exactly
 * when it is refused, that a refusal changes nothing, and what a call that goes
 * through leaves behind.
 */
module AccessRules {
  import opened Prelude
  import opened Access

  // ---- The tables, row by row ----

  predicate GrantsKey(w: Workspace, r: Id, k: Key) {
    r in w.roles && k in w.roles[r].grants && w.roles[r].grants[k] == true
  }

  /** A membership that lets its user administer: Active, not removed, on the role named Admin. */
  predicate ActsAsAdmin(w: Workspace, m: Id) {
    && m in w.members && w.members[m].status == Active && !w.members[m].deleted
    && w.members[m].roleId in w.roles && w.roles[w.members[m].roleId].name == "Admin"
  }

  /** One of the user's Active memberships is on a role that grants the key. */
  predicate GivesKey(w: Workspace, u: Id, m: Id, k: Key) {
    m in w.members && w.members[m].user == u && w.members[m].status == Active && GrantsKey(w, w.members[m].roleId, k)
  }

  predicate HasKey(w: Workspace, u: Id, k: Key) {
    exists m | m in w.members :: GivesKey(w, u, m, k)
  }

  predicate IsAdmin(w: Workspace, u: Id) {
    exists m | m in w.members :: ActsAsAdmin(w, m) && w.members[m].user == u
  }

  /** What the permission read answers is the keys the user's Active memberships give. */
  lemma ReadsAreTheRows(w: Workspace, u: Id, k: Key)
    ensures Holds(w, u, k) <==> HasKey(w, u, k)
    ensures IsActiveAdminUser(w, u) <==> IsAdmin(w, u)
  {
    forall m | m in w.members
      ensures Reaches(w, u, m, k) <==> GivesKey(w, u, m, k)
      ensures m in ActiveAdmins(w) <==> ActsAsAdmin(w, m)
    {
    }
    if m :| m in w.members && GivesKey(w, u, m, k) {
      assert Reaches(w, u, m, k);
    }
    if m :| m in w.members && ActsAsAdmin(w, m) && w.members[m].user == u {
      assert m in ActiveAdmins(w);
    }
  }

  /** The last Admin is one beside whom no other membership acts as Admin. */
  predicate OnlyAdmin(w: Workspace, m: Id) {
    ActsAsAdmin(w, m) && forall o | o in w.members && o != m :: !ActsAsAdmin(w, o)
  }

  lemma LastAdminIsTheOnlyOne(w: Workspace, m: Id)
    requires m in w.members && !w.members[m].deleted
    ensures LastAdmin(w, m) <==> OnlyAdmin(w, m)
  {
    var admins := ActiveAdmins(w);
    forall o | o in w.members ensures o in admins <==> ActsAsAdmin(w, o) {
    }
    if ActsAsAdmin(w, m) {
      SubsetIsSmaller({m}, admins);
      if o :| o in w.members && o != m && ActsAsAdmin(w, o) {
        SubsetIsSmaller({m, o}, admins);
        assert !OnlyAdmin(w, m);
      } else {
        assert admins == {m};
      }
    }
  }

  /** Nobody but an Admin may hand out a key their own memberships do not give them. */
  predicate HandsOutMore(w: Workspace, actor: Id, keys: set<Key>) {
    !IsAdmin(w, actor) && exists k | k in keys :: !HasKey(w, actor, k)
  }

  lemma EscalatingIsHandingOutMore(w: Workspace, actor: Id, keys: set<Key>)
    ensures Escalates(w, actor, keys) <==> HandsOutMore(w, actor, keys)
  {
    forall k | k in keys
      ensures Holds(w, actor, k) <==> HasKey(w, actor, k)
      ensures IsActiveAdminUser(w, actor) <==> IsAdmin(w, actor)
    {
      ReadsAreTheRows(w, actor, k);
    }
    ReadsAreTheRows(w, actor, "");
  }

  /** A save that drops user management from the one role that still grants it. */
  predicate LeavesNobodyManaging(w: Workspace, r: Id, keys: set<Key>) {
    && "setUsers" !in keys && GrantsKey(w, r, "setUsers")
    && forall q | q in w.roles && q != r :: !GrantsKey(w, q, "setUsers")
  }

  lemma StrandingLeavesNobodyManaging(w: Workspace, r: Id, keys: set<Key>)
    ensures Strands(w, r, keys) <==> LeavesNobodyManaging(w, r, keys)
  {
    var managing := RolesGranting(w, "setUsers");
    forall q | q in w.roles ensures q in managing <==> GrantsKey(w, q, "setUsers") {
    }
    if GrantsKey(w, r, "setUsers") {
      SubsetIsSmaller({r}, managing);
      if q :| q in w.roles && q != r && GrantsKey(w, q, "setUsers") {
        SubsetIsSmaller({r, q}, managing);
      } else {
        assert managing == {r};
      }
    }
  }

  // ---- Members: suspended, reactivated, removed, joined ----

  /** Only this membership may differ: its owner, address and role do not, nor any role or audit row. */
  predicate OnlyAccessMayDiffer(w: Workspace, after: Workspace, m: Id) {
    && after.catalog == w.catalog && after.roles == w.roles && after.audit == w.audit
    && after.members.Keys == w.members.Keys && after.members - {m} == w.members - {m}
    && (m in w.members ==>
          && after.members[m].user == w.members[m].user && after.members[m].email == w.members[m].email
          && after.members[m].roleId == w.members[m].roleId)
  }

  /**
   * A membership not there is not found, the only Admin is kept, and anybody
   * else is suspended, and no key comes from it any more.
   */
  lemma SuspendingSuspends(w: Workspace, m: Id)
    ensures var (after, error) := SuspendMember(w, m);
            && (error == Some(NotFound) <==> m !in w.members || w.members[m].deleted)
            && (error == Some(Conflict) <==> m in w.members && !w.members[m].deleted && OnlyAdmin(w, m))
            && error != Some(Forbidden)
            && (error.Some? ==> after == w)
            && OnlyAccessMayDiffer(w, after, m)
            && (error.None? ==>
                  && after.members[m].status == Suspended && !after.members[m].deleted
                  && forall u, k :: !GivesKey(after, u, m, k))
  {
    if m in w.members && !w.members[m].deleted {
      LastAdminIsTheOnlyOne(w, m);
    }
  }

  /** Reactivating gives back exactly the keys of the role the membership kept. */
  lemma ReactivatingRestores(w: Workspace, m: Id)
    ensures var (after, error) := ReactivateMember(w, m);
            && (error == Some(NotFound) <==> m !in w.members || w.members[m].deleted)
            && (error.Some? ==> error == Some(NotFound) && after == w)
            && OnlyAccessMayDiffer(w, after, m)
            && (error.None? ==>
                  && after.members[m].status == Active && !after.members[m].deleted
                  && forall k :: GivesKey(after, after.members[m].user, m, k)
                                 <==> GrantsKey(w, w.members[m].roleId, k))
  {
  }

  /** Suspending and reactivating leaves an Active member as they were. */
  lemma ReactivatingUndoesSuspending(w: Workspace, m: Id)
    requires m in w.members && w.members[m].status == Active && SuspendMember(w, m).1.None?
    ensures ReactivateMember(SuspendMember(w, m).0, m) == (w, None)
  {
    SuspendingSuspends(w, m);
    var suspended := SuspendMember(w, m).0;
    ReactivatingRestores(suspended, m);
    var after := ReactivateMember(suspended, m).0;
    assert after.members[m] == w.members[m];
    assert after.members == (after.members - {m})[m := w.members[m]] == w.members;
  }

  /** A removed membership is gone to every later call, gives nobody a key, and leaves the rest alone. */
  lemma RemovingRemoves(w: Workspace, m: Id)
    ensures var (after, error) := RemoveMember(w, m);
            && (error == Some(NotFound) <==> m !in w.members || w.members[m].deleted)
            && (error == Some(Conflict) <==> m in w.members && !w.members[m].deleted && OnlyAdmin(w, m))
            && error != Some(Forbidden)
            && (error.Some? ==> after == w)
            && OnlyAccessMayDiffer(w, after, m)
            && (error.None? ==>
                  && !MemberExists(after, m)
                  && (forall u, k :: !Reaches(after, u, m, k) && !GivesKey(after, u, m, k))
                  && (forall actor, r :: ChangeMemberRole(after, actor, m, r) == (after, Some(NotFound)))
                  && SuspendMember(after, m) == RemoveMember(after, m) == (after, Some(NotFound))
                  && ReactivateMember(after, m) == AcceptInvite(after, m) == (after, Some(NotFound)))
  {
    if m in w.members && !w.members[m].deleted {
      LastAdminIsTheOnlyOne(w, m);
    }
  }

  /** Only an invitation can be accepted, and the member then has the keys of the role they were invited to. */
  lemma AcceptingJoins(w: Workspace, m: Id)
    ensures var (after, error) := AcceptInvite(w, m);
            && (error == Some(NotFound) <==> m !in w.members || w.members[m].status != Invited)
            && (error.Some? ==> error == Some(NotFound) && after == w)
            && OnlyAccessMayDiffer(w, after, m)
            && (error.None? ==>
                  && after.members[m].status == Active && after.members[m].deleted == w.members[m].deleted
                  && forall k :: GivesKey(after, after.members[m].user, m, k)
                                 <==> GrantsKey(w, w.members[m].roleId, k))
  {
  }

  /** Somebody of that address is a member here, not removed, whose status is or is not still Invited. */
  predicate Stands(w: Workspace, m: Id, email: string, joined: bool) {
    && m in w.members && !w.members[m].deleted && w.members[m].email == email
    && joined == (w.members[m].status != Invited)
  }

  /**
   * A role that is not there is not found, an address that has joined is
   * refused, one still invited changes nothing; any other gets a new
   * membership on that role that gives no key until it is accepted.
   */
  lemma InvitingInvites(w: Workspace, id: Id, user: Id, email: string, r: Id)
    requires id !in w.members
    ensures var (after, error) := InviteMember(w, id, user, email, r);
            && (error == Some(NotFound) <==> r !in w.roles)
            && (error == Some(Conflict) <==> r in w.roles && exists m | m in w.members :: Stands(w, m, email, true))
            && error != Some(Forbidden)
            && (error.Some? ==> after == w)
            && (error.None? && (exists m | m in w.members :: Stands(w, m, email, false)) ==> after == w)
            && (error.None? && (forall m | m in w.members :: !Stands(w, m, email, false)) ==>
                  && after.members.Keys == w.members.Keys + {id} && after.members - {id} == w.members
                  && Stands(after, id, email, false)
                  && after.members[id].user == user && after.members[id].roleId == r
                  && after.roles == w.roles && after.catalog == w.catalog && after.audit == w.audit
                  && forall u, k :: !GivesKey(after, u, id, k))
  {
    forall m | m in w.members
      ensures Stands(w, m, email, true) <==> MemberOn(w, m, email) && w.members[m].status != Invited
      ensures Stands(w, m, email, false) <==> MemberOn(w, m, email) && w.members[m].status == Invited
    {
    }
    if m :| m in w.members && Stands(w, m, email, false) {
      assert MemberOn(w, m, email);
    }
    if m :| m in w.members && Stands(w, m, email, true) {
      assert MemberOn(w, m, email);
    }
  }

  // ---- Moving a member to another role ----

  function KeysOf(w: Workspace, r: Id): set<Key> {
    if r in w.roles then set k | k in w.roles[r].grants && GrantsKey(w, r, k) else {}
  }

  /**
   * A move is refused, in this order, when the member or the role is not there,
   * when the actor would hand out more than they have, and when it takes the
   * only Admin off the role. A refused move changes nothing.
   */
  lemma MovingIsRefused(w: Workspace, actor: Id, m: Id, r: Id)
    ensures var (after, error) := ChangeMemberRole(w, actor, m, r);
            var found := m in w.members && !w.members[m].deleted && r in w.roles;
            && (error == Some(NotFound) <==> !found)
            && (error == Some(Forbidden) <==> found && HandsOutMore(w, actor, KeysOf(w, r)))
            && (error == Some(Conflict) <==>
                  found && !HandsOutMore(w, actor, KeysOf(w, r)) && w.roles[r].name != "Admin" && OnlyAdmin(w, m))
            && (error.Some? ==> after == w)
  {
    EscalatingIsHandingOutMore(w, actor, KeysOf(w, r));
    assert KeysOf(w, r) == Granted(w, r);
    if m in w.members && !w.members[m].deleted {
      LastAdminIsTheOnlyOne(w, m);
    }
  }

  /** A newly given key is sensitive when it exports the registrations or refunds a payment. */
  predicate IsSensitive(k: Key) {
    k == "regExport" || k == "finRefund"
  }

  lemma SensitiveIsNamed(keys: set<Key>)
    ensures keys * SENSITIVE != {} <==> exists k | k in keys :: IsSensitive(k)
  {
    if k :| k in keys && IsSensitive(k) {
      assert k in keys * SENSITIVE;
    }
    if k :| k in keys * SENSITIVE {
      assert IsSensitive(k) && k in keys;
    }
  }

  /**
   * A move that goes through puts the member on the new role, everything else
   * about them and everybody else as before, and one audit row says from which
   * role to which, flagged exactly when it newly gives a sensitive key. Moving
   * to the role one has changes nothing.
   */
  lemma MovingMoves(w: Workspace, actor: Id, m: Id, r: Id)
    requires ChangeMemberRole(w, actor, m, r).1.None?
    ensures var after := ChangeMemberRole(w, actor, m, r).0;
            && m in w.members && r in w.roles
            && after.members.Keys == w.members.Keys && after.members - {m} == w.members - {m}
            && after.roles == w.roles && after.catalog == w.catalog
            && after.members[m] == Member(w.members[m].user, w.members[m].email, r, w.members[m].status, false)
            && (w.members[m].roleId == r ==> after == w)
            && (w.members[m].roleId != r && w.members[m].roleId in w.roles ==>
                  && |after.audit| == |w.audit| + 1 && after.audit[..|w.audit|] == w.audit
                  && var row := after.audit[|w.audit|];
                     && row.MemberMoved? && row.member == m
                     && row.from == w.roles[w.members[m].roleId].name && row.to == w.roles[r].name
                     && (row.flagged <==> exists k | k in KeysOf(w, r) - KeysOf(w, w.members[m].roleId) ::
                                            IsSensitive(k)))
  {
    var from := w.members[m].roleId;
    assert KeysOf(w, r) == Granted(w, r) && KeysOf(w, from) == Granted(w, from);
    SensitiveIsNamed(KeysOf(w, r) - KeysOf(w, from));
  }

  // ---- Roles: created and edited ----

  /**
   * Creating a role is refused when it grants more than the actor has, then
   * when the name is taken; a refusal changes nothing.
   */
  lemma CreatingIsRefused(w: Workspace, actor: Id, id: Id, name: string, keys: set<Key>)
    ensures var (after, error) := CreateRole(w, actor, id, name, keys);
            && (error == Some(Forbidden) <==> HandsOutMore(w, actor, keys))
            && (error == Some(Conflict) <==>
                  !HandsOutMore(w, actor, keys) && exists r | r in w.roles :: w.roles[r].name == name)
            && error != Some(NotFound)
            && (error.Some? ==> after == w)
  {
    EscalatingIsHandingOutMore(w, actor, keys);
  }

  /** The new role grants exactly the keys chosen and refuses the rest of the catalog, on the record. */
  lemma CreatingCreates(w: Workspace, actor: Id, id: Id, name: string, keys: set<Key>)
    requires id !in w.roles && keys <= w.catalog && CreateRole(w, actor, id, name, keys).1.None?
    ensures var after := CreateRole(w, actor, id, name, keys).0;
            && after.members == w.members && after.catalog == w.catalog
            && after.roles.Keys == w.roles.Keys + {id} && after.roles - {id} == w.roles
            && after.roles[id].name == name && after.roles[id].grants.Keys == w.catalog
            && (forall k :: GrantsKey(after, id, k) <==> k in keys)
            && |after.audit| == |w.audit| + 1 && after.audit[..|w.audit|] == w.audit
            && var row := after.audit[|w.audit|];
               row.RoleCreated? && row.role == name && row.granted == keys
               && (row.flagged <==> exists k | k in keys :: IsSensitive(k))
  {
    SensitiveIsNamed(keys);
  }

  /**
   * An edit is refused when it grants more than the actor has, then when it
   * would leave no role managing users, then when the role is not there; a
   * refusal changes nothing.
   */
  lemma SavingIsRefused(w: Workspace, actor: Id, r: Id, keys: set<Key>)
    ensures var (after, error) := SetRolePermissions(w, actor, r, keys);
            && (error == Some(Forbidden) <==> HandsOutMore(w, actor, keys))
            && (error == Some(Conflict) <==> !HandsOutMore(w, actor, keys) && LeavesNobodyManaging(w, r, keys))
            && (error == Some(NotFound) <==> !HandsOutMore(w, actor, keys) && r !in w.roles)
            && (error.Some? ==> after == w)
  {
    EscalatingIsHandingOutMore(w, actor, keys);
    StrandingLeavesNobodyManaging(w, r, keys);
  }

  /**
   * An edit leaves the role granting exactly the keys chosen, with every key it
   * had decided before or the catalog offers now decided, and changes no other
   * role, no name and no member. The row it writes names what came and what went.
   */
  lemma SavingSaves(w: Workspace, actor: Id, r: Id, keys: set<Key>)
    requires keys <= w.catalog && SetRolePermissions(w, actor, r, keys).1.None?
    requires r in w.roles ==> w.roles[r].grants.Keys <= w.catalog
    ensures var after := SetRolePermissions(w, actor, r, keys).0;
            && r in w.roles && after.members == w.members && after.catalog == w.catalog
            && after.roles.Keys == w.roles.Keys && after.roles - {r} == w.roles - {r}
            && after.roles[r].name == w.roles[r].name && after.roles[r].grants.Keys == w.catalog
            && (forall k :: GrantsKey(after, r, k) <==> k in keys)
            && (keys == KeysOf(w, r) ==> after.audit == w.audit)
            && (keys != KeysOf(w, r) ==>
                  && |after.audit| == |w.audit| + 1 && after.audit[..|w.audit|] == w.audit
                  && var row := after.audit[|w.audit|];
                     && row.RoleChanged? && row.role == w.roles[r].name
                     && (forall k :: k in row.granted <==> k in keys && !GrantsKey(w, r, k))
                     && (forall k :: k in row.revoked <==> k !in keys && GrantsKey(w, r, k))
                     && (row.flagged <==> exists k | k in keys && !GrantsKey(w, r, k) :: IsSensitive(k)))
  {
    var before := KeysOf(w, r);
    assert before == Granted(w, r);
    assert keys - before == {} && before - keys == {} <==> keys == before by {
      if keys - before == {} && before - keys == {} {
        assert keys <= before <= keys;
      }
    }
    SensitiveIsNamed(keys - before);
  }

  // ---- A new workspace ----

  /** What an organizer is not given: money paid back or managed, and the workspace's own settings. */
  predicate OwnersOnly(k: Key) {
    k == "finRefund" || k == "finManage" || k == "setUsers" || k == "setSettings" || k == "setIntegrations"
  }

  predicate ForStaff(k: Key) {
    k == "regView" || k == "regCheckin" || k == "evProgramView"
  }

  lemma SeedsByKey(k: Key)
    ensures k in DEFAULT_ROLES[0].grants <==> k in PERMISSION_CATALOG
    ensures k in DEFAULT_ROLES[1].grants <==> k in PERMISSION_CATALOG && !OwnersOnly(k)
    ensures k in DEFAULT_ROLES[2].grants <==> ForStaff(k)
  {
  }

  lemma SeededGrants(w: Workspace, r: Id, seed: RoleSeed, k: Key)
    requires r in w.roles && w.roles[r] == SeededRole(seed)
    ensures GrantsKey(w, r, k) <==> k in seed.grants
  {
  }

  /**
   * Three roles, of which the first grants every key, the second all but the
   * owner's own and the third what staff at the door need.
   */
  lemma DefaultRolesGrant(firstRole: Id, membership: Id, owner: Id, email: string, k: Key)
    ensures var w := BootstrapWorkspace(firstRole, membership, owner, email);
            && w.roles.Keys == {firstRole, firstRole + 1, firstRole + 2}
            && w.roles[firstRole].name == "Admin" && w.roles[firstRole + 1].name == "Organizer"
            && w.roles[firstRole + 2].name == "Staff"
            && (GrantsKey(w, firstRole, k) <==> k in PERMISSION_CATALOG)
            && (GrantsKey(w, firstRole + 1, k) <==> k in PERMISSION_CATALOG && !OwnersOnly(k))
            && (GrantsKey(w, firstRole + 2, k) <==> ForStaff(k))
  {
    var w := BootstrapWorkspace(firstRole, membership, owner, email);
    SeedsByKey(k);
    SeededGrants(w, firstRole, DEFAULT_ROLES[0], k);
    SeededGrants(w, firstRole + 1, DEFAULT_ROLES[1], k);
    SeededGrants(w, firstRole + 2, DEFAULT_ROLES[2], k);
  }

  /** The owner is the only member, the only Admin, and on the only role that manages users. */
  lemma SignUpSetsUp(firstRole: Id, membership: Id, owner: Id, email: string)
    ensures var w := BootstrapWorkspace(firstRole, membership, owner, email);
            && w.catalog == PERMISSION_CATALOG && w.audit == []
            && w.members.Keys == {membership}
            && w.members[membership] == Member(owner, email, firstRole, Active, false)
            && OnlyAdmin(w, membership)
            && (forall r | r in w.roles :: GrantsKey(w, r, "setUsers") <==> r == firstRole)
  {
    DefaultRolesGrant(firstRole, membership, owner, email, "setUsers");
    assert !ForStaff("setUsers");
  }
}
