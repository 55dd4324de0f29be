/** UserAccessControlService over the RBAC link table. Each row links a user to
    a rule (optionally on a stock) or to a role; a rule row that was inserted
    because of a role carries in `simplifiedBy` the id of that role's row.

    RbacService's `validateRule`/`validateRole` and RbacModel's
    `unlinkRules`/`unlinkRoles` are not part of this model's source;
    ValidateRule, ValidateRole, UnlinkRules and UnlinkRoles are ASSUMED contracts
    for them. */
module AccessControl {
  import opened Common
  import opened Data

  datatype LinkedRuleInputDto = LinkedRuleInputDto(ruleId: int, stockId: Option<int>)
  datatype LinkedRuleOutputDto = LinkedRuleOutputDto(ruleId: int, stockId: Option<int>)
  datatype RoleOutputDto = RoleOutputDto(id: int, name: string, rules: seq<LinkedRuleOutputDto>)

  /** A row of the RBAC link table. */
  datatype RbacRow = RbacRow(id: int, user: int, rule: Option<int>, stock: Option<int>,
                             role: Option<int>, simplifiedBy: Option<int>)

  /** The RBAC link table, in scan order; ids come from an auto-increment counter. */
  class RbacModel {
    var rows: seq<RbacRow>
    var nextId: int

    ghost predicate Valid()
      reads this
    {
      forall i :: 0 <= i < |rows| ==> rows[i].id < nextId
    }

    constructor ()
      ensures Valid() && rows == []
    {
      rows := [];
      nextId := 1;
    }
  }

  /** The rule and role tables, only read here: the known rule ids and every role with its rules. */
  datatype RbacCatalog = RbacCatalog(rules: set<int>, roles: map<int, RoleOutputDto>)
  {
    /** Every role is stored under its own id. */
    ghost predicate Valid()
    {
      forall id :: id in roles ==> roles[id].id == id
    }
  }

  // ------------------------------------------------------------ assumptions

  /** ASSUMED `validateRule`: a known rule yields its link, anything else is refused. */
  function ValidateRule(catalog: RbacCatalog, input: LinkedRuleInputDto): (r: Result<LinkedRuleOutputDto>)
    ensures r.Ok? <==> input.ruleId in catalog.rules
    ensures r.Ok? ==> r.value == LinkedRuleOutputDto(input.ruleId, input.stockId)
    ensures r.Err? ==> r.error == BadRequest
  {
    if input.ruleId in catalog.rules then Ok(LinkedRuleOutputDto(input.ruleId, input.stockId)) else Err(BadRequest)
  }

  /** ASSUMED `validateRole`: a known role yields the role with its rules, anything else is refused. */
  function ValidateRole(catalog: RbacCatalog, roleId: int): (r: Result<RoleOutputDto>)
    ensures r.Ok? <==> roleId in catalog.roles
    ensures r.Ok? ==> r.value == catalog.roles[roleId]
    ensures r.Err? ==> r.error == BadRequest
  {
    if roleId in catalog.roles then Ok(catalog.roles[roleId]) else Err(BadRequest)
  }

  /** The links that validating the requested rules yields, one per request, in order. */
  function LinksOf(newRules: seq<LinkedRuleInputDto>): (r: seq<LinkedRuleOutputDto>)
    ensures |r| == |newRules|
    ensures forall i :: 0 <= i < |newRules| ==> r[i] == LinkedRuleOutputDto(newRules[i].ruleId, newRules[i].stockId)
  {
    seq(|newRules|, i requires 0 <= i < |newRules| => LinkedRuleOutputDto(newRules[i].ruleId, newRules[i].stockId))
  }

  /** The catalogue's roles for the requested ids, one per request, in order. */
  function RolesOf(catalog: RbacCatalog, newRoles: seq<int>): (r: seq<RoleOutputDto>)
    requires forall i :: 0 <= i < |newRoles| ==> newRoles[i] in catalog.roles
    ensures |r| == |newRoles|
    ensures forall i :: 0 <= i < |newRoles| ==> r[i] == catalog.roles[newRoles[i]]
  {
    seq(|newRoles|, i requires 0 <= i < |newRoles| => catalog.roles[newRoles[i]])
  }

  // ----------------------------------------------------------- row helpers

  /** The rows of `rows` that `pick` accepts, in order: a `select` over the table. */
  function Select(rows: seq<RbacRow>, pick: RbacRow -> bool): (r: seq<RbacRow>)
    ensures forall x :: x in r <==> x in rows && pick(x)
    ensures IsSubsequence(r, rows)
    decreases |rows|
  {
    if rows == [] then []
    else
      var prefix, last := rows[..|rows| - 1], rows[|rows| - 1];
      assert rows == prefix + [last];
      var selected := Select(prefix, pick);
      SubsequenceExtend(selected, prefix, last);
      if pick(last) then selected + [last] else selected
  }

  /** The rows that a list of links adds for `user`, with consecutive ids from `start`. */
  function LinkRows(start: int, user: int, links: seq<LinkedRuleOutputDto>, simplifiedBy: Option<int>): (rows: seq<RbacRow>)
    ensures |rows| == |links|
    ensures forall i :: 0 <= i < |links| ==>
      rows[i] == RbacRow(start + i, user, Some(links[i].ruleId), links[i].stockId, None, simplifiedBy)
  {
    seq(|links|, i requires 0 <= i < |links| =>
      RbacRow(start + i, user, Some(links[i].ruleId), links[i].stockId, None, simplifiedBy))
  }

  /** The rows one role adds: its role row, then its rules, each simplified by that role row. */
  function RoleBlock(start: int, user: int, role: RoleOutputDto): seq<RbacRow>
  {
    [RbacRow(start, user, None, None, Some(role.id), None)] + LinkRows(start + 1, user, role.rules, Some(start))
  }

  function BlockSize(roles: seq<RoleOutputDto>): nat
  {
    if roles == [] then 0 else BlockSize(roles[..|roles| - 1]) + 1 + |roles[|roles| - 1].rules|
  }

  /** The rows a list of roles adds for `user`, with consecutive ids from `start`. */
  function RoleRows(start: int, user: int, roles: seq<RoleOutputDto>): seq<RbacRow>
  {
    if roles == [] then []
    else
      var prefix := roles[..|roles| - 1];
      RoleRows(start, user, prefix) + RoleBlock(start + BlockSize(prefix), user, roles[|roles| - 1])
  }

  /** Rows with consecutive ids from `start`, all for `user`; each links either a
      role or a rule; role rows are direct, and every rule row is simplified by
      an earlier role row of the same batch. */
  ghost predicate LinkedBatch(r: seq<RbacRow>, start: int, user: int)
  {
    && (forall k :: 0 <= k < |r| ==> r[k].id == start + k && r[k].user == user)
    && (forall k :: 0 <= k < |r| ==> (r[k].role.Some? <==> r[k].rule.None?))
    && (forall k :: 0 <= k < |r| && r[k].role.Some? ==> r[k].simplifiedBy.None?)
    && (forall k :: 0 <= k < |r| && r[k].rule.Some? ==> SimplifiedByEarlierRole(r, start, k))
  }

  ghost predicate SimplifiedByEarlierRole(r: seq<RbacRow>, start: int, k: int)
    requires 0 <= k < |r|
  {
    r[k].simplifiedBy.Some? && start <= r[k].simplifiedBy.value < start + k &&
    r[r[k].simplifiedBy.value - start].role.Some?
  }

  /** Role assignment inserts a linked batch: every derived rule row points back to its role row. */
  lemma {:induction false} RoleRowsShape(start: int, user: int, roles: seq<RoleOutputDto>)
    ensures |RoleRows(start, user, roles)| == BlockSize(roles)
    ensures LinkedBatch(RoleRows(start, user, roles), start, user)
    decreases |roles|
  {
    if roles != [] {
      var prefix, role := roles[..|roles| - 1], roles[|roles| - 1];
      RoleRowsShape(start, user, prefix);
      var p := RoleRows(start, user, prefix);
      var base := start + BlockSize(prefix);
      var b := RoleBlock(base, user, role);
      var r := RoleRows(start, user, roles);
      assert r == p + b;
      assert |b| == 1 + |role.rules|;
      forall k | |p| <= k < |r|
        ensures r[k].id == start + k && r[k].user == user
        ensures r[k].role.Some? <==> r[k].rule.None?
        ensures r[k].role.Some? ==> r[k].simplifiedBy.None?
        ensures r[k].rule.Some? ==> r[k].simplifiedBy == Some(base) && r[base - start].role.Some?
        ensures r[k].rule.Some? ==> SimplifiedByEarlierRole(r, start, k)
      {
        assert r[k] == b[k - |p|];
        assert r[base - start] == b[0];
        if k > |p| {
          assert b[k - |p|] == LinkRows(base + 1, user, role.rules, Some(base))[k - |p| - 1];
        }
      }
    }
  }

  // ------------------------------------------------------------- inserting

  /** The rule-list `appendToUser`: insert one row per link for `user`, each
      carrying the given `simplifiedBy`, and return the links unchanged. */
  method AppendRules(rbac: RbacModel, user: int, links: seq<LinkedRuleOutputDto>, simplifiedBy: Option<int>)
    returns (r: seq<LinkedRuleOutputDto>)
    requires rbac.Valid()
    modifies rbac
    ensures rbac.Valid()
    ensures r == links
    ensures rbac.rows == old(rbac.rows) + LinkRows(old(rbac.nextId), user, links, simplifiedBy)
    ensures rbac.nextId == old(rbac.nextId) + |links|
  {
    var i := 0;
    while i < |links|
      invariant 0 <= i <= |links|
      invariant rbac.Valid()
      invariant rbac.nextId == old(rbac.nextId) + i
      invariant rbac.rows == old(rbac.rows) + LinkRows(old(rbac.nextId), user, links[..i], simplifiedBy)
    {
      var row := RbacRow(rbac.nextId, user, Some(links[i].ruleId), links[i].stockId, None, simplifiedBy);
      assert LinkRows(old(rbac.nextId), user, links[..i + 1], simplifiedBy)
          == LinkRows(old(rbac.nextId), user, links[..i], simplifiedBy) + [row];
      rbac.rows := rbac.rows + [row];
      rbac.nextId := rbac.nextId + 1;
      i := i + 1;
    }
    assert links[..i] == links;
    r := links;
  }

  /** The role-list `appendToUser`: for each role insert its role row, then its
      rules with `simplifiedBy` set to the id of that new role row. */
  method AppendRoles(rbac: RbacModel, user: int, roles: seq<RoleOutputDto>) returns (r: seq<RoleOutputDto>)
    requires rbac.Valid()
    modifies rbac
    ensures rbac.Valid()
    ensures r == roles
    ensures rbac.rows == old(rbac.rows) + RoleRows(old(rbac.nextId), user, roles)
    ensures rbac.nextId == old(rbac.nextId) + BlockSize(roles)
  {
    var i := 0;
    while i < |roles|
      invariant 0 <= i <= |roles|
      invariant rbac.Valid()
      invariant rbac.nextId == old(rbac.nextId) + BlockSize(roles[..i])
      invariant rbac.rows == old(rbac.rows) + RoleRows(old(rbac.nextId), user, roles[..i])
    {
      assert roles[..i + 1][..i] == roles[..i];
      var relation := rbac.nextId;
      rbac.rows := rbac.rows + [RbacRow(relation, user, None, None, Some(roles[i].id), None)];
      rbac.nextId := rbac.nextId + 1;
      var _ := AppendRules(rbac, user, roles[i].rules, Some(relation));
      i := i + 1;
    }
    assert roles[..i] == roles;
    r := roles;
  }

  /** `newRules.map { validateRule }`: every requested rule is checked before
      anything is inserted. */
  method ValidateRules(catalog: RbacCatalog, newRules: seq<LinkedRuleInputDto>) returns (r: Result<seq<LinkedRuleOutputDto>>)
    ensures r.Ok? <==> forall i :: 0 <= i < |newRules| ==> newRules[i].ruleId in catalog.rules
    ensures r.Ok? ==> |r.value| == |newRules|
    ensures r.Ok? ==> forall i :: 0 <= i < |newRules| ==> r.value[i] == LinkedRuleOutputDto(newRules[i].ruleId, newRules[i].stockId)
    ensures r.Err? ==> r.error == BadRequest
  {
    var validated: seq<LinkedRuleOutputDto> := [];
    for i := 0 to |newRules|
      invariant |validated| == i
      invariant forall j :: 0 <= j < i ==> newRules[j].ruleId in catalog.rules
      invariant forall j :: 0 <= j < i ==> validated[j] == LinkedRuleOutputDto(newRules[j].ruleId, newRules[j].stockId)
    {
      var link := ValidateRule(catalog, newRules[i]);
      if link.Err? {
        return Err(link.error);
      }
      validated := validated + [link.value];
    }
    r := Ok(validated);
  }

  /** `newRoles.map { validateRole }`. */
  method ValidateRoles(catalog: RbacCatalog, newRoles: seq<int>) returns (r: Result<seq<RoleOutputDto>>)
    ensures r.Ok? <==> forall i :: 0 <= i < |newRoles| ==> newRoles[i] in catalog.roles
    ensures r.Ok? ==> |r.value| == |newRoles|
    ensures r.Ok? ==> forall i :: 0 <= i < |newRoles| ==> r.value[i] == catalog.roles[newRoles[i]]
    ensures r.Err? ==> r.error == BadRequest
  {
    var validated: seq<RoleOutputDto> := [];
    for i := 0 to |newRoles|
      invariant |validated| == i
      invariant forall j :: 0 <= j < i ==> newRoles[j] in catalog.roles
      invariant forall j :: 0 <= j < i ==> validated[j] == catalog.roles[newRoles[j]]
    {
      var role := ValidateRole(catalog, newRoles[i]);
      if role.Err? {
        return Err(role.error);
      }
      validated := validated + [role.value];
    }
    r := Ok(validated);
  }

  /** `addRules(userDao, newRules)`: validate all, then insert them as direct rows. */
  method AddRulesToUser(rbac: RbacModel, catalog: RbacCatalog, user: int, newRules: seq<LinkedRuleInputDto>)
    returns (r: Result<seq<LinkedRuleOutputDto>>)
    requires rbac.Valid()
    modifies rbac
    ensures rbac.Valid()
    ensures r.Ok? <==> forall i :: 0 <= i < |newRules| ==> newRules[i].ruleId in catalog.rules
    ensures r.Err? ==> r.error == BadRequest && rbac.rows == old(rbac.rows) && rbac.nextId == old(rbac.nextId)
    ensures r.Ok? ==>
      && |r.value| == |newRules|
      && (forall i :: 0 <= i < |newRules| ==> r.value[i] == LinkedRuleOutputDto(newRules[i].ruleId, newRules[i].stockId))
      && r.value == LinksOf(newRules)
      && rbac.rows == old(rbac.rows) + LinkRows(old(rbac.nextId), user, LinksOf(newRules), None)
      && rbac.nextId == old(rbac.nextId) + |newRules|
  {
    r := ValidateRules(catalog, newRules);
    if r.Ok? {
      assert r.value == LinksOf(newRules);
      var _ := AppendRules(rbac, user, r.value, None);
    }
  }

  /** `addRoles(userDao, newRoles)`: validate all, then insert each role with its rules. */
  method AddRolesToUser(rbac: RbacModel, catalog: RbacCatalog, user: int, newRoles: seq<int>)
    returns (r: Result<seq<RoleOutputDto>>)
    requires rbac.Valid()
    modifies rbac
    ensures rbac.Valid()
    ensures r.Ok? <==> forall i :: 0 <= i < |newRoles| ==> newRoles[i] in catalog.roles
    ensures r.Err? ==> r.error == BadRequest && rbac.rows == old(rbac.rows) && rbac.nextId == old(rbac.nextId)
    ensures r.Ok? ==>
      && |r.value| == |newRoles|
      && (forall i :: 0 <= i < |newRoles| ==> r.value[i] == catalog.roles[newRoles[i]])
      && r.value == RolesOf(catalog, newRoles)
      && rbac.rows == old(rbac.rows) + RoleRows(old(rbac.nextId), user, RolesOf(catalog, newRoles))
      && rbac.nextId == old(rbac.nextId) + BlockSize(RolesOf(catalog, newRoles))
  {
    r := ValidateRoles(catalog, newRoles);
    if r.Ok? {
      assert r.value == RolesOf(catalog, newRoles);
      var _ := AppendRoles(rbac, user, r.value);
    }
  }

  /** The entry `logUpdate` writes. */
  function RightsUpdated(authorLogin: string, targetLogin: string, description: string): (e: LogEntry)
    ensures !e.resettable && e.event.UserRightsUpdated?
    ensures e.event.author == authorLogin && e.event.target == targetLogin && e.event.description == description
  {
    LogEntry(UserRightsUpdated(authorLogin, targetLogin, description), false)
  }

  /** The user to notify after a change of `target`'s rights made by `author`. */
  function NotifyTarget(author: int, target: int): (n: Option<int>)
    ensures n.Some? <==> author != target
    ensures n.Some? ==> n.value == target
  {
    if author != target then Some(target) else None
  }

  /** `addRules(authorizedUser, targetId, newRules)`: log the change, add the
      rules to the target user, and notify the target when someone else made
      the change. A failure anywhere leaves the tables as they were. */
  method AddRules(users: UserModel, rbac: RbacModel, log: SystemEventModel, catalog: RbacCatalog,
                  author: int, targetId: int, newRules: seq<LinkedRuleInputDto>)
    returns (r: Result<seq<LinkedRuleOutputDto>>, notified: Option<int>)
    requires rbac.Valid()
    modifies rbac, log
    ensures rbac.Valid()
    ensures LoginOf(users.rows, targetId).Err? ==> r == Err(NotFound)
    ensures LoginOf(users.rows, targetId).Ok? && LoginOf(users.rows, author).Err? ==> r == Err(NotFound)
    ensures r.Ok? <==>
      && LoginOf(users.rows, targetId).Ok? && LoginOf(users.rows, author).Ok?
      && forall i :: 0 <= i < |newRules| ==> newRules[i].ruleId in catalog.rules
    ensures r.Err? ==> rbac.rows == old(rbac.rows) && rbac.nextId == old(rbac.nextId) && log.entries == old(log.entries)
    ensures r.Ok? ==>
      && log.entries == old(log.entries) + [RightsUpdated(LoginOf(users.rows, author).value, LoginOf(users.rows, targetId).value, "New rules added")]
      && r.value == LinksOf(newRules)
      && rbac.rows == old(rbac.rows) + LinkRows(old(rbac.nextId), targetId, LinksOf(newRules), None)
      && rbac.nextId == old(rbac.nextId) + |newRules|
    ensures notified == if r.Ok? then NotifyTarget(author, targetId) else None
  {
    notified := None;
    var target := LoginOf(users.rows, targetId);
    if target.Err? {
      return Err(target.error), None;
    }
    var authorName := LoginOf(users.rows, author);
    if authorName.Err? {
      return Err(authorName.error), None;
    }
    var entriesBefore := log.entries;
    log.entries := log.entries + [RightsUpdated(authorName.value, target.value, "New rules added")];
    r := AddRulesToUser(rbac, catalog, targetId, newRules);
    if r.Err? {
      // the exception aborts the enclosing database transaction
      log.entries := entriesBefore;
      return;
    }
    notified := NotifyTarget(author, targetId);
  }

  /** `addRoles(authorizedUser, targetId, newRoles)`: as AddRules, for roles. */
  method AddRoles(users: UserModel, rbac: RbacModel, log: SystemEventModel, catalog: RbacCatalog,
                  author: int, targetId: int, newRoles: seq<int>)
    returns (r: Result<seq<RoleOutputDto>>, notified: Option<int>)
    requires rbac.Valid()
    modifies rbac, log
    ensures rbac.Valid()
    ensures LoginOf(users.rows, targetId).Err? ==> r == Err(NotFound)
    ensures LoginOf(users.rows, targetId).Ok? && LoginOf(users.rows, author).Err? ==> r == Err(NotFound)
    ensures r.Ok? <==>
      && LoginOf(users.rows, targetId).Ok? && LoginOf(users.rows, author).Ok?
      && forall i :: 0 <= i < |newRoles| ==> newRoles[i] in catalog.roles
    ensures r.Err? ==> rbac.rows == old(rbac.rows) && rbac.nextId == old(rbac.nextId) && log.entries == old(log.entries)
    ensures r.Ok? ==>
      && log.entries == old(log.entries) + [RightsUpdated(LoginOf(users.rows, author).value, LoginOf(users.rows, targetId).value, "New roles added")]
      && r.value == RolesOf(catalog, newRoles)
      && rbac.rows == old(rbac.rows) + RoleRows(old(rbac.nextId), targetId, RolesOf(catalog, newRoles))
      && rbac.nextId == old(rbac.nextId) + BlockSize(RolesOf(catalog, newRoles))
      && |r.value| == |newRoles|
      && (forall i :: 0 <= i < |newRoles| ==> r.value[i] == catalog.roles[newRoles[i]])
    ensures notified == if r.Ok? then NotifyTarget(author, targetId) else None
  {
    notified := None;
    var target := LoginOf(users.rows, targetId);
    if target.Err? {
      return Err(target.error), None;
    }
    var authorName := LoginOf(users.rows, author);
    if authorName.Err? {
      return Err(authorName.error), None;
    }
    var entriesBefore := log.entries;
    log.entries := log.entries + [RightsUpdated(authorName.value, target.value, "New roles added")];
    r := AddRolesToUser(rbac, catalog, targetId, newRoles);
    if r.Err? {
      log.entries := entriesBefore;
      return;
    }
    notified := NotifyTarget(author, targetId);
  }

  // -------------------------------------------------------------- removing

  /** Whether `unlinkRules` deletes the row: a direct rule row of the target that links one of the given rules. */
  predicate UnlinkedRule(x: RbacRow, target: int, links: seq<LinkedRuleInputDto>)
  {
    x.user == target && x.simplifiedBy.None? && x.rule.Some? && LinkedRuleInputDto(x.rule.value, x.stock) in links
  }

  /** ASSUMED `unlinkRules` restricted to the target's direct rows: delete the
      rows UnlinkedRule picks. Every row of other users and every role or
      role-derived row of the target survives, in order. */
  function UnlinkRules(rows: seq<RbacRow>, target: int, links: seq<LinkedRuleInputDto>): (r: seq<RbacRow>)
    ensures IsSubsequence(r, rows)
    ensures forall x :: x in r <==> x in rows && !UnlinkedRule(x, target, links)
    ensures forall x :: x in rows && (x.user != target || x.simplifiedBy.Some? || x.rule.None?) ==> x in r
  {
    Select(rows, (x: RbacRow) => !UnlinkedRule(x, target, links))
  }

  /** Ids of the target's role rows for the given roles. */
  function RoleRowIds(rows: seq<RbacRow>, target: int, roleIds: seq<int>): set<int>
  {
    set i | 0 <= i < |rows| && rows[i].user == target && rows[i].role.Some? && rows[i].role.value in roleIds :: rows[i].id
  }

  /** Whether `unlinkRoles` deletes the row: a target's row of one of the roles, or a rule row simplified by one. */
  predicate UnlinkedRole(x: RbacRow, target: int, roleIds: seq<int>, roleRows: set<int>)
  {
    x.user == target &&
    ((x.role.Some? && x.role.value in roleIds) || (x.simplifiedBy.Some? && x.simplifiedBy.value in roleRows))
  }

  /** ASSUMED `unlinkRoles`: delete the target's rows of those roles together with the rule rows they simplified. */
  function UnlinkRoles(rows: seq<RbacRow>, target: int, roleIds: seq<int>): (r: seq<RbacRow>)
    ensures IsSubsequence(r, rows)
    ensures forall x :: x in r <==> x in rows && !UnlinkedRole(x, target, roleIds, RoleRowIds(rows, target, roleIds))
    ensures forall x :: x in rows && x.user != target ==> x in r
  {
    var roleRows := RoleRowIds(rows, target, roleIds);
    Select(rows, (x: RbacRow) => !UnlinkedRole(x, target, roleIds, roleRows))
  }

  /** `removeRules`: unlink the listed rules from the target's direct rows, log,
      commit, and notify the target when someone else made the change. */
  method RemoveRules(users: UserModel, rbac: RbacModel, log: SystemEventModel,
                     author: int, targetId: int, linkedRules: seq<LinkedRuleInputDto>)
    returns (r: Result<()>, notified: Option<int>)
    requires rbac.Valid()
    modifies rbac`rows, log
    ensures rbac.Valid()
    ensures r.Ok? <==> LoginOf(users.rows, targetId).Ok? && LoginOf(users.rows, author).Ok?
    ensures r.Err? ==> r.error == NotFound && rbac.rows == old(rbac.rows) && log.entries == old(log.entries)
    ensures r.Ok? ==>
      && rbac.rows == UnlinkRules(old(rbac.rows), targetId, linkedRules)
      && log.entries == old(log.entries) + [RightsUpdated(LoginOf(users.rows, author).value, LoginOf(users.rows, targetId).value, "Some rules were removed")]
    ensures notified == if r.Ok? then NotifyTarget(author, targetId) else None
  {
    var target := LoginOf(users.rows, targetId);
    if target.Err? {
      return Err(target.error), None;
    }
    var rowsBefore := rbac.rows;
    rbac.rows := UnlinkRules(rbac.rows, targetId, linkedRules);
    assert forall i :: 0 <= i < |rbac.rows| ==> rbac.rows[i] in rowsBefore;
    var authorName := LoginOf(users.rows, author);
    if authorName.Err? {
      rbac.rows := rowsBefore;
      return Err(authorName.error), None;
    }
    log.entries := log.entries + [RightsUpdated(authorName.value, target.value, "Some rules were removed")];
    // commit()
    r := Ok(());
    notified := NotifyTarget(author, targetId);
  }

  /** `removeRoles`: unlink the listed roles from the target, log, commit, notify. */
  method RemoveRoles(users: UserModel, rbac: RbacModel, log: SystemEventModel,
                     author: int, targetId: int, linkedRoles: seq<int>)
    returns (r: Result<()>, notified: Option<int>)
    requires rbac.Valid()
    modifies rbac`rows, log
    ensures rbac.Valid()
    ensures r.Ok? <==> LoginOf(users.rows, targetId).Ok? && LoginOf(users.rows, author).Ok?
    ensures r.Err? ==> r.error == NotFound && rbac.rows == old(rbac.rows) && log.entries == old(log.entries)
    ensures r.Ok? ==>
      && rbac.rows == UnlinkRoles(old(rbac.rows), targetId, linkedRoles)
      && log.entries == old(log.entries) + [RightsUpdated(LoginOf(users.rows, author).value, LoginOf(users.rows, targetId).value, "Some roles were removed")]
    ensures notified == if r.Ok? then NotifyTarget(author, targetId) else None
  {
    var target := LoginOf(users.rows, targetId);
    if target.Err? {
      return Err(target.error), None;
    }
    var rowsBefore := rbac.rows;
    rbac.rows := UnlinkRoles(rbac.rows, targetId, linkedRoles);
    assert forall i :: 0 <= i < |rbac.rows| ==> rbac.rows[i] in rowsBefore;
    var authorName := LoginOf(users.rows, author);
    if authorName.Err? {
      rbac.rows := rowsBefore;
      return Err(authorName.error), None;
    }
    log.entries := log.entries + [RightsUpdated(authorName.value, target.value, "Some roles were removed")];
    r := Ok(());
    notified := NotifyTarget(author, targetId);
  }

  // --------------------------------------------------------------- queries

  /** `checkAccessToStock`: the user holds the rule on the stock. */
  function CheckAccessToStock(rows: seq<RbacRow>, user: int, rule: int, stock: int): (r: bool)
    ensures r <==> exists i :: 0 <= i < |rows| && rows[i].user == user && rows[i].rule == Some(rule) && rows[i].stock == Some(stock)
  {
    var matching := Select(rows, (x: RbacRow) => x.user == user && x.rule == Some(rule) && x.stock == Some(stock));
    assert forall i :: 0 <= i < |rows| && rows[i].user == user && rows[i].rule == Some(rule) && rows[i].stock == Some(stock) ==>
      rows[i] in matching;
    assert |matching| > 0 ==> matching[0] in matching;
    |matching| > 0
  }

  /** A row that links a rule on a stock: both columns are set. */
  predicate StockRule(x: RbacRow)
  {
    x.rule.Some? && x.stock.Some?
  }

  /** The stock-to-rules map built from rows that all link a rule on a stock:
      each row appends its rule to its stock's list. */
  function StockRulesMap(models: seq<RbacRow>): map<int, seq<int>>
    requires forall i :: 0 <= i < |models| ==> StockRule(models[i])
  {
    if models == [] then map[]
    else
      var m, row := StockRulesMap(models[..|models| - 1]), models[|models| - 1];
      assert StockRule(row);
      var stock := row.stock.value;
      m[stock := (if stock in m then m[stock] else []) + [row.rule.value]]
  }

  /** The rules linked on `stock`, in row order. */
  function RulesOnStock(models: seq<RbacRow>, stock: int): seq<int>
  {
    if models == [] then []
    else
      var row := models[|models| - 1];
      RulesOnStock(models[..|models| - 1], stock) + (if row.stock == Some(stock) && row.rule.Some? then [row.rule.value] else [])
  }

  /** The map's keys are exactly the stocks of the rows, and each stock's list is its rules in row order. */
  lemma {:induction false} StockRulesMapGroupsByStock(models: seq<RbacRow>)
    requires forall i :: 0 <= i < |models| ==> StockRule(models[i])
    ensures forall stock :: stock in StockRulesMap(models) <==> exists i :: 0 <= i < |models| && models[i].stock == Some(stock)
    ensures forall stock :: stock in StockRulesMap(models) ==> StockRulesMap(models)[stock] == RulesOnStock(models, stock)
    decreases |models|
  {
    if models != [] {
      var prefix := models[..|models| - 1];
      StockRulesMapGroupsByStock(prefix);
      forall stock | exists i :: 0 <= i < |models| && models[i].stock == Some(stock)
        ensures stock in StockRulesMap(models)
      {
        var i :| 0 <= i < |models| && models[i].stock == Some(stock);
        if i < |prefix| {
          assert prefix[i] == models[i];
        }
      }
      forall stock | stock in StockRulesMap(models)
        ensures exists i :: 0 <= i < |models| && models[i].stock == Some(stock)
      {
        if stock != models[|models| - 1].stock.value {
          var i :| 0 <= i < |prefix| && prefix[i].stock == Some(stock);
          assert models[i] == prefix[i];
        }
      }
      forall stock | stock in StockRulesMap(models)
        ensures StockRulesMap(models)[stock] == RulesOnStock(models, stock)
      {
        if stock !in StockRulesMap(prefix) {
          RulesOnStockEmpty(prefix, stock);
        }
      }
    }
  }

  lemma {:induction false} RulesOnStockEmpty(models: seq<RbacRow>, stock: int)
    requires forall i :: 0 <= i < |models| ==> models[i].stock != Some(stock)
    ensures RulesOnStock(models, stock) == []
    decreases |models|
  {
    if models != [] {
      RulesOnStockEmpty(models[..|models| - 1], stock);
    }
  }

  /** Some element of a non-empty set. */
  ghost function Pick(keys: set<int>): (k: int)
    requires |keys| != 0
    ensures k in keys
  {
    if forall k :: k !in keys then assert false; 0
    else var k :| k in keys; k
  }

  /** Sum of the list lengths over `keys`. */
  ghost function LengthOver(m: map<int, seq<int>>, keys: set<int>): nat
    requires keys <= m.Keys
    decreases |keys|
  {
    if |keys| == 0 then 0
    else
      var k := Pick(keys);
      |m[k]| + LengthOver(m, keys - {k})
  }

  /** Total length of all the lists in the map. */
  ghost function TotalLength(m: map<int, seq<int>>): nat
  {
    LengthOver(m, m.Keys)
  }

  lemma {:induction false} LengthOverPick(m: map<int, seq<int>>, keys: set<int>, k: int)
    requires keys <= m.Keys && k in keys
    ensures LengthOver(m, keys) == |m[k]| + LengthOver(m, keys - {k})
    decreases |keys|
  {
    var j := Pick(keys);
    assert LengthOver(m, keys) == |m[j]| + LengthOver(m, keys - {j});
    if j != k {
      LengthOverPick(m, keys - {j}, k);
      LengthOverPick(m, keys - {k}, j);
      assert keys - {j} - {k} == keys - {k} - {j};
    }
  }

  lemma {:induction false} LengthOverAgree(m1: map<int, seq<int>>, m2: map<int, seq<int>>, keys: set<int>)
    requires keys <= m1.Keys && keys <= m2.Keys
    requires forall k :: k in keys ==> |m1[k]| == |m2[k]|
    ensures LengthOver(m1, keys) == LengthOver(m2, keys)
    decreases |keys|
  {
    if |keys| != 0 {
      var k := Pick(keys);
      LengthOverPick(m1, keys, k);
      LengthOverPick(m2, keys, k);
      LengthOverAgree(m1, m2, keys - {k});
    }
  }

  /** Every row lands in exactly one list: the lists together are as long as the rows. */
  lemma {:induction false} StockRulesMapKeepsEveryRow(models: seq<RbacRow>)
    requires forall i :: 0 <= i < |models| ==> StockRule(models[i])
    ensures TotalLength(StockRulesMap(models)) == |models|
    decreases |models|
  {
    if models != [] {
      var prefix := models[..|models| - 1];
      StockRulesMapKeepsEveryRow(prefix);
      var m, m' := StockRulesMap(prefix), StockRulesMap(models);
      var stock := models[|models| - 1].stock.value;
      if stock in m {
        assert m'.Keys == m.Keys;
        LengthOverPick(m', m.Keys, stock);
        LengthOverPick(m, m.Keys, stock);
        LengthOverAgree(m, m', m.Keys - {stock});
      } else {
        assert m'.Keys - {stock} == m.Keys;
        LengthOverPick(m', m'.Keys, stock);
        LengthOverAgree(m, m', m.Keys);
      }
    }
  }

  /** `translateRbacModelsToStockRulesMap`: group the rows' rules by stock in one pass. */
  method TranslateToStockRulesMap(models: seq<RbacRow>) returns (result: map<int, seq<int>>)
    requires forall i :: 0 <= i < |models| ==> StockRule(models[i])
    ensures result == StockRulesMap(models)
  {
    result := map[];
    for i := 0 to |models|
      invariant result == StockRulesMap(models[..i])
    {
      assert models[..i + 1][..i] == models[..i];
      assert models[..i + 1][i] == models[i];
      var ruleId := models[i].rule.value;
      var stockId := models[i].stock.value;
      ghost var before: seq<int> := if stockId in result then result[stockId] else [];
      if stockId in result {
        result := result[stockId := result[stockId] + [ruleId]];
      } else {
        assert before + [ruleId] == [ruleId];
        result := result[stockId := [ruleId]];
      }
    }
    assert models[..|models|] == models;
  }

  /** The rows `getAvailableStocks` selects: the user's rule-on-stock rows. */
  predicate AvailableRow(x: RbacRow, user: int)
  {
    x.user == user && StockRule(x)
  }

  /** The rows `getAvailableStocksByOperations` selects: as AvailableRow, without the concrete-stock-view rule. */
  predicate OperationRow(x: RbacRow, user: int, concreteStockView: int)
  {
    AvailableRow(x, user) && x.rule.value != concreteStockView
  }

  function AvailableRows(rows: seq<RbacRow>, user: int): (r: seq<RbacRow>)
    ensures forall i :: 0 <= i < |r| ==> StockRule(r[i])
  {
    var r := Select(rows, (x: RbacRow) => AvailableRow(x, user));
    assert forall i :: 0 <= i < |r| ==> r[i] in r;
    r
  }

  function OperationRows(rows: seq<RbacRow>, user: int, concreteStockView: int): (r: seq<RbacRow>)
    ensures forall i :: 0 <= i < |r| ==> StockRule(r[i])
  {
    var r := Select(rows, (x: RbacRow) => OperationRow(x, user, concreteStockView));
    assert forall i :: 0 <= i < |r| ==> r[i] in r;
    r
  }

  /** `getAvailableStocks`: the user's stocks, each with the rules the user holds on it. */
  method GetAvailableStocks(rows: seq<RbacRow>, user: int) returns (r: map<int, seq<int>>)
    ensures r == StockRulesMap(AvailableRows(rows, user))
  {
    r := TranslateToStockRulesMap(AvailableRows(rows, user));
  }

  /** `getAvailableStocksByOperations`: as GetAvailableStocks, leaving out the
      rule `concreteStockView` (a configuration constant, here a parameter). */
  method GetAvailableStocksByOperations(rows: seq<RbacRow>, user: int, concreteStockView: int) returns (r: map<int, seq<int>>)
    ensures r == StockRulesMap(OperationRows(rows, user, concreteStockView))
  {
    r := TranslateToStockRulesMap(OperationRows(rows, user, concreteStockView));
  }

  /** The operations map never lists the concrete-stock-view rule, and each of its
      lists is a subsequence of the same stock's list in the full map. */
  lemma OperationsAreAvailableStocks(rows: seq<RbacRow>, user: int, concreteStockView: int)
    ensures var ops, all := StockRulesMap(OperationRows(rows, user, concreteStockView)), StockRulesMap(AvailableRows(rows, user));
      && ops.Keys <= all.Keys
      && (forall stock :: stock in ops ==> concreteStockView !in ops[stock])
      && (forall stock :: stock in ops ==> IsSubsequence(ops[stock], all[stock]))
  {
    var opRows, allRows := OperationRows(rows, user, concreteStockView), AvailableRows(rows, user);
    StockRulesMapGroupsByStock(opRows);
    StockRulesMapGroupsByStock(allRows);
    var ops, all := StockRulesMap(opRows), StockRulesMap(allRows);
    forall stock | stock in ops
      ensures stock in all && concreteStockView !in ops[stock] && IsSubsequence(ops[stock], all[stock])
    {
      var i :| 0 <= i < |opRows| && opRows[i].stock == Some(stock);
      assert opRows[i] in opRows;
      var j :| 0 <= j < |allRows| && allRows[j] == opRows[i];
      RulesOnStockOfSelections(rows, user, concreteStockView, stock);
    }
  }

  /** Stock by stock, the operation rules are the available rules without the concrete-stock-view rule. */
  lemma {:induction false} RulesOnStockOfSelections(rows: seq<RbacRow>, user: int, concreteStockView: int, stock: int)
    ensures concreteStockView !in RulesOnStock(OperationRows(rows, user, concreteStockView), stock)
    ensures IsSubsequence(RulesOnStock(OperationRows(rows, user, concreteStockView), stock),
                          RulesOnStock(AvailableRows(rows, user), stock))
    decreases |rows|
  {
    if rows != [] {
      var prefix, last := rows[..|rows| - 1], rows[|rows| - 1];
      RulesOnStockOfSelections(prefix, user, concreteStockView, stock);
      var ops, all := RulesOnStock(OperationRows(prefix, user, concreteStockView), stock), RulesOnStock(AvailableRows(prefix, user), stock);
      if OperationRow(last, user, concreteStockView) {
        assert OperationRows(rows, user, concreteStockView) == OperationRows(prefix, user, concreteStockView) + [last];
        assert AvailableRows(rows, user) == AvailableRows(prefix, user) + [last];
        if last.stock == Some(stock) {
          SubsequenceExtend(ops, all, last.rule.value);
        } else {
          assert RulesOnStock(OperationRows(rows, user, concreteStockView), stock) == ops;
          assert RulesOnStock(AvailableRows(rows, user), stock) == all;
        }
      } else if AvailableRow(last, user) {
        assert OperationRows(rows, user, concreteStockView) == OperationRows(prefix, user, concreteStockView);
        assert AvailableRows(rows, user) == AvailableRows(prefix, user) + [last];
        if last.stock == Some(stock) {
          SubsequenceExtend(ops, all, last.rule.value);
        } else {
          assert RulesOnStock(AvailableRows(rows, user), stock) == all;
        }
      } else {
        assert OperationRows(rows, user, concreteStockView) == OperationRows(prefix, user, concreteStockView);
        assert AvailableRows(rows, user) == AvailableRows(prefix, user);
      }
    }
  }

  /** `filterAvailable`: the stocks of the user's rows that are among `stocks`, in row order. */
  function FilterAvailable(rows: seq<RbacRow>, user: int, stocks: seq<int>): (r: seq<int>)
    ensures forall s :: s in r ==> s in stocks
    ensures forall s :: s in r <==> exists i :: 0 <= i < |rows| && rows[i].user == user && rows[i].stock == Some(s) && s in stocks
    decreases |rows|
  {
    if rows == [] then []
    else
      var prefix, row := rows[..|rows| - 1], rows[|rows| - 1];
      var r := FilterAvailable(prefix, user, stocks);
      assert forall i :: 0 <= i < |prefix| ==> prefix[i] == rows[i];
      if row.user == user && row.stock.Some? && row.stock.value in stocks then r + [row.stock.value] else r
  }
}
