/** UserRolesEventService: rolling back a change of a user's roles. The stored
    payload names the user and the roles; only the roles that still exist are
    re-added (rollback of a removal) or removed (rollback of an addition). */
module UserRolesEvents {
  import opened Common
  import opened Data
  import opened AccessControl

  /** `getRollbackData<UserRolesRollbackDto>()`: the user id and the role ids of
      the payload; any other payload fails to decode. */
  function DecodeUserRoles(event: SystemEventOutputDto): (r: Result<(int, seq<int>)>)
    ensures r.Ok? <==> event.rollbackInstance.UserRolesPayload?
    ensures r.Ok? ==> r.value == (event.rollbackInstance.objectId, event.rollbackInstance.roles)
    ensures r.Err? ==> r.error == MalformedPayload
  {
    match event.rollbackInstance
    case UserRolesPayload(objectId, roles) => Ok((objectId, roles))
    case _ => Err(MalformedPayload)
  }

  /** The payload roles that still exist in the role table, in payload order. */
  function ExistingRoles(roles: seq<int>, catalog: RbacCatalog): (r: seq<int>)
    ensures IsSubsequence(r, roles)
    ensures forall x :: x in r <==> x in roles && x in catalog.roles
    ensures forall i :: 0 <= i < |r| ==> r[i] in catalog.roles
    decreases |roles|
  {
    if roles == [] then []
    else
      var prefix, last := roles[..|roles| - 1], roles[|roles| - 1];
      assert roles == prefix + [last];
      var kept := ExistingRoles(prefix, catalog);
      SubsequenceExtend(kept, prefix, last);
      if last in catalog.roles then kept + [last] else kept
  }

  /** `rollbackUpdate`: not implemented, it always throws. */
  function RollbackUpdate(event: SystemEventOutputDto): (r: Result<()>)
    ensures r.Err? && r.error == NotImplemented
  {
    Err(NotImplemented)
  }

  /** `rollbackRemove`: give the user of the payload back those of its roles
      that still exist. Roles that have since been deleted cannot make the
      re-adding fail; only a bad payload or a missing user can. */
  method RollbackRemove(users: UserModel, rbac: RbacModel, log: SystemEventModel, catalog: RbacCatalog,
                        author: int, event: SystemEventOutputDto)
    returns (r: Result<()>, notified: Option<int>)
    requires rbac.Valid() && catalog.Valid()
    modifies rbac, log
    ensures rbac.Valid()
    ensures DecodeUserRoles(event).Err? ==> r == Err(MalformedPayload)
    ensures r.Ok? <==>
      && DecodeUserRoles(event).Ok?
      && LoginOf(users.rows, DecodeUserRoles(event).value.0).Ok?
      && LoginOf(users.rows, author).Ok?
    ensures r.Err? ==> rbac.rows == old(rbac.rows) && rbac.nextId == old(rbac.nextId) && log.entries == old(log.entries)
    ensures r.Ok? ==>
      && var (user, roles) := DecodeUserRoles(event).value;
      && rbac.rows == old(rbac.rows) + RoleRows(old(rbac.nextId), user, RolesOf(catalog, ExistingRoles(roles, catalog)))
      && rbac.nextId == old(rbac.nextId) + BlockSize(RolesOf(catalog, ExistingRoles(roles, catalog)))
      && log.entries == old(log.entries) + [RightsUpdated(LoginOf(users.rows, author).value, LoginOf(users.rows, user).value, "New roles added")]
      && |old(rbac.rows)| <= |rbac.rows|
      && rbac.rows[..|old(rbac.rows)|] == old(rbac.rows)
      && LinkedBatch(rbac.rows[|old(rbac.rows)|..], old(rbac.nextId), user)
      && (forall k :: |old(rbac.rows)| <= k < |rbac.rows| && rbac.rows[k].role.Some? ==>
            rbac.rows[k].role.value in ExistingRoles(roles, catalog))
    ensures notified == if r.Ok? then NotifyTarget(author, DecodeUserRoles(event).value.0) else None
  {
    var decoded := DecodeUserRoles(event);
    if decoded.Err? {
      return Err(decoded.error), None;
    }
    var (user, roles) := decoded.value;
    var existing := ExistingRoles(roles, catalog);
    var added;
    added, notified := AddRoles(users, rbac, log, catalog, author, user, existing);
    if added.Err? {
      return Err(added.error), notified;
    }
    RoleRowsShape(old(rbac.nextId), user, added.value);
    RoleRowsFromCatalog(old(rbac.nextId), user, existing, added.value, catalog);
    assert rbac.rows[|old(rbac.rows)|..] == RoleRows(old(rbac.nextId), user, added.value);
    r := Ok(());
  }

  /** Every role row inserted for a list of roles taken from the catalogue is a row of one of those roles. */
  lemma {:induction false} RoleRowsFromCatalog(start: int, user: int, ids: seq<int>, roles: seq<RoleOutputDto>, catalog: RbacCatalog)
    requires |roles| == |ids|
    requires forall i :: 0 <= i < |ids| ==> ids[i] in catalog.roles && roles[i] == catalog.roles[ids[i]]
    requires catalog.Valid()
    ensures forall k :: 0 <= k < |RoleRows(start, user, roles)| && RoleRows(start, user, roles)[k].role.Some? ==>
      RoleRows(start, user, roles)[k].role.value in ids
    decreases |roles|
  {
    if roles != [] {
      var n := |roles| - 1;
      RoleRowsFromCatalog(start, user, ids[..n], roles[..n], catalog);
      var p: seq<RbacRow> := RoleRows(start, user, roles[..n]);
      var b: seq<RbacRow> := RoleBlock(start + BlockSize(roles[..n]), user, roles[n]);
      assert RoleRows(start, user, roles) == p + b;
      forall k | 0 <= k < |p + b| && (p + b)[k].role.Some?
        ensures (p + b)[k].role.value in ids
      {
        if k < |p| {
          assert (p + b)[k] == p[k];
          assert p[k].role.value in ids[..n];
          assert forall x :: x in ids[..n] ==> x in ids;
        } else {
          assert (p + b)[k] == b[k - |p|];
          if k > |p| {
            assert false;
          }
          assert b[0].role == Some(roles[n].id) && roles[n].id == ids[n];
          assert ids[n] in ids;
        }
      }
    }
  }

  /** `rollbackCreate`: take from the user of the payload those of its roles
      that still exist; rows of other users are not touched. */
  method RollbackCreate(users: UserModel, rbac: RbacModel, log: SystemEventModel, catalog: RbacCatalog,
                        author: int, event: SystemEventOutputDto)
    returns (r: Result<()>, notified: Option<int>)
    requires rbac.Valid()
    modifies rbac`rows, log
    ensures rbac.Valid()
    ensures DecodeUserRoles(event).Err? ==> r == Err(MalformedPayload)
    ensures r.Ok? <==>
      && DecodeUserRoles(event).Ok?
      && LoginOf(users.rows, DecodeUserRoles(event).value.0).Ok?
      && LoginOf(users.rows, author).Ok?
    ensures r.Err? ==> rbac.rows == old(rbac.rows) && log.entries == old(log.entries)
    ensures r.Ok? ==>
      && var (user, roles) := DecodeUserRoles(event).value;
      && rbac.rows == UnlinkRoles(old(rbac.rows), user, ExistingRoles(roles, catalog))
      && log.entries == old(log.entries) + [RightsUpdated(LoginOf(users.rows, author).value, LoginOf(users.rows, user).value, "Some roles were removed")]
      && (forall x :: x in old(rbac.rows) && x.user != user ==> x in rbac.rows)
    ensures notified == if r.Ok? then NotifyTarget(author, DecodeUserRoles(event).value.0) else None
  {
    var decoded := DecodeUserRoles(event);
    if decoded.Err? {
      return Err(decoded.error), None;
    }
    var (user, roles) := decoded.value;
    r, notified := RemoveRoles(users, rbac, log, author, user, ExistingRoles(roles, catalog));
  }
}
