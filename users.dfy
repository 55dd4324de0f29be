/** UserService: creating a user together with its rules and roles as one unit,
    removing and updating users, and the user listing filtered by login and
    name and sorted by login.

    UserDao's `checkUnique`, `delete`, `loadAndFlush` and `toOutputDto`, the
    `createLikeCond` helper, CryptoUtil's hash and the socket service are not
    part of this model's source: LoginTaken, RemoveRow, ApplyUpdate, Like and
    ToOutputDto are ASSUMED contracts for the first five, and the hash and the
    outcome of dropping the socket connection are parameters. */
module Users {
  import opened Common
  import opened Data
  import opened AccessControl

  datatype CreateUserParams = CreateUserParams(name: string, login: string, password: string)
  datatype CreateUserDto = CreateUserDto(params: CreateUserParams, rules: seq<LinkedRuleInputDto>, roles: seq<int>)
  datatype UserOutputDto = UserOutputDto(id: int, name: string, login: string, lastLogin: int)
  datatype UserRemoveOutputDto = UserRemoveOutputDto(id: int, message: string)
  datatype UserUpdateDto = UserUpdateDto(name: Option<string>, login: Option<string>, hash: Option<string>)
  datatype UserFilterDto = UserFilterDto(login: Option<string>, name: Option<string>)

  /** No two users share a login. */
  ghost predicate LoginsUnique(rows: seq<UserRecord>)
  {
    forall i, j :: 0 <= i < j < |rows| ==> rows[i].login != rows[j].login
  }

  /** ASSUMED `checkUnique(login)`: fails when some user already has the login. */
  function LoginTaken(rows: seq<UserRecord>, login: string): (b: bool)
    ensures b <==> exists i :: 0 <= i < |rows| && rows[i].login == login
    decreases |rows|
  {
    if rows == [] then false
    else rows[0].login == login || LoginTaken(rows[1..], login)
  }

  /** ASSUMED `toOutputDto`, and the row mapping of the listing: a user that
      never logged in is shown with last login 0. */
  function ToOutputDto(row: UserRecord): (r: UserOutputDto)
    ensures r.id == row.id && r.name == row.name && r.login == row.login
    ensures row.lastLogin.None? ==> r.lastLogin == 0
    ensures row.lastLogin.Some? ==> r.lastLogin == row.lastLogin.value
  {
    UserOutputDto(row.id, row.name, row.login, if row.lastLogin.Some? then row.lastLogin.value else 0)
  }

  /** The `try` block of `createUser`: add the rules, then the roles, to the new
      user; if either is refused, the rows added so far are rolled back. */
  method AddRulesAndRoles(rbac: RbacModel, catalog: RbacCatalog, user: int,
                          rules: seq<LinkedRuleInputDto>, roles: seq<int>) returns (ok: bool)
    requires rbac.Valid()
    modifies rbac
    ensures rbac.Valid()
    ensures ok <==>
      && (forall i :: 0 <= i < |rules| ==> rules[i].ruleId in catalog.rules)
      && (forall i :: 0 <= i < |roles| ==> roles[i] in catalog.roles)
    ensures !ok ==> rbac.rows == old(rbac.rows) && rbac.nextId == old(rbac.nextId)
    ensures ok ==>
      && rbac.rows == old(rbac.rows) + LinkRows(old(rbac.nextId), user, LinksOf(rules), None)
                                     + RoleRows(old(rbac.nextId) + |rules|, user, RolesOf(catalog, roles))
      && rbac.nextId == old(rbac.nextId) + |rules| + BlockSize(RolesOf(catalog, roles))
      && |old(rbac.rows)| <= |rbac.rows| && rbac.rows[..|old(rbac.rows)|] == old(rbac.rows)
      && (forall k :: |old(rbac.rows)| <= k < |rbac.rows| ==> rbac.rows[k].user == user)
  {
    var rowsBefore, nextBefore := rbac.rows, rbac.nextId;
    var addedRules := AddRulesToUser(rbac, catalog, user, rules);
    if addedRules.Err? {
      return false;
    }
    ghost var ruleRows := LinkRows(nextBefore, user, LinksOf(rules), None);
    ghost var withRules := rbac.rows;
    var addedRoles := AddRolesToUser(rbac, catalog, user, roles);
    if addedRoles.Err? {
      rbac.rows, rbac.nextId := rowsBefore, nextBefore;
      return false;
    }
    ghost var roleRows := RoleRows(nextBefore + |rules|, user, RolesOf(catalog, roles));
    assert rbac.rows == rowsBefore + ruleRows + roleRows;
    assert rbac.nextId == nextBefore + |rules| + BlockSize(RolesOf(catalog, roles));
    GrantedRowsBelongToUser(rowsBefore, nextBefore, user, LinksOf(rules), RolesOf(catalog, roles));
    ok := true;
  }

  /** Every row granted after `before` for a list of rules followed by a list of roles belongs to the user. */
  lemma GrantedRowsBelongToUser(before: seq<RbacRow>, start: int, user: int,
                                links: seq<LinkedRuleOutputDto>, roles: seq<RoleOutputDto>)
    ensures var all := before + LinkRows(start, user, links, None) + RoleRows(start + |links|, user, roles);
      |before| <= |all| && all[..|before|] == before &&
      forall k :: |before| <= k < |all| ==> all[k].user == user
  {
    RoleRowsShape(start + |links|, user, roles);
    var granted := LinkRows(start, user, links, None) + RoleRows(start + |links|, user, roles);
    var all := before + LinkRows(start, user, links, None) + RoleRows(start + |links|, user, roles);
    assert all == before + granted;
    assert forall k :: |before| <= k < |all| ==> all[k] == granted[k - |before|];
  }

  /** `createUser`: check that the login is free, insert the user with the
      hashed password, then add its rules and roles; bad rules or roles undo
      the whole creation. */
  method CreateUser(users: UserModel, rbac: RbacModel, catalog: RbacCatalog, hash: string -> string,
                    author: int, dto: CreateUserDto)
    returns (r: Result<UserOutputDto>)
    requires users.Valid() && rbac.Valid()
    modifies users, rbac
    ensures users.Valid() && rbac.Valid()
    ensures LoginTaken(old(users.rows), dto.params.login) ==> r == Err(NotUnique)
    ensures !LoginTaken(old(users.rows), dto.params.login) && LoginOf(old(users.rows), author).Err? ==> r == Err(NotFound)
    ensures r.Ok? <==>
      && !LoginTaken(old(users.rows), dto.params.login)
      && LoginOf(old(users.rows), author).Ok?
      && (forall i :: 0 <= i < |dto.rules| ==> dto.rules[i].ruleId in catalog.rules)
      && (forall i :: 0 <= i < |dto.roles| ==> dto.roles[i] in catalog.roles)
    ensures r.Err? ==> users.rows == old(users.rows) && rbac.rows == old(rbac.rows)
    ensures r.Err? ==> users.nextId == old(users.nextId) && rbac.nextId == old(rbac.nextId)
    ensures LoginsUnique(old(users.rows)) ==> LoginsUnique(users.rows)
    ensures r.Ok? ==>
      && r.value == UserOutputDto(old(users.nextId), dto.params.name, dto.params.login, 0)
      && users.rows == old(users.rows) + [UserRecord(r.value.id, dto.params.name, dto.params.login, hash(dto.params.password), None)]
      && rbac.rows == old(rbac.rows) + LinkRows(old(rbac.nextId), r.value.id, LinksOf(dto.rules), None)
                                     + RoleRows(old(rbac.nextId) + |dto.rules|, r.value.id, RolesOf(catalog, dto.roles))
      && users.nextId == old(users.nextId) + 1
      && rbac.nextId == old(rbac.nextId) + |dto.rules| + BlockSize(RolesOf(catalog, dto.roles))
      && |old(rbac.rows)| <= |rbac.rows| && rbac.rows[..|old(rbac.rows)|] == old(rbac.rows)
      && (forall k :: |old(rbac.rows)| <= k < |rbac.rows| ==> rbac.rows[k].user == r.value.id)
  {
    if LoginTaken(users.rows, dto.params.login) {
      return Err(NotUnique);
    }
    var authorName := LoginOf(users.rows, author);
    if authorName.Err? {
      return Err(authorName.error);
    }
    var usersBefore := users.rows;
    var id := users.nextId;
    users.rows := users.rows + [UserRecord(id, dto.params.name, dto.params.login, hash(dto.params.password), None)];
    users.nextId := id + 1;
    var ok := AddRulesAndRoles(rbac, catalog, id, dto.rules, dto.roles);
    if !ok {
      // rollback()
      users.rows, users.nextId := usersBefore, id;
      return Err(BadRequest);
    }
    // commit()
    r := Ok(UserOutputDto(id, dto.params.name, dto.params.login, 0));
  }

  /** ASSUMED `UserDao.delete`: the user's row leaves the table. */
  function RemoveRow(rows: seq<UserRecord>, id: int): (r: seq<UserRecord>)
    ensures forall x :: x in r <==> x in rows && x.id != id
    ensures IsSubsequence(r, rows)
    decreases |rows|
  {
    if rows == [] then []
    else
      var prefix, last := rows[..|rows| - 1], rows[|rows| - 1];
      assert rows == prefix + [last];
      var kept := RemoveRow(prefix, id);
      SubsequenceExtend(kept, prefix, last);
      if last.id == id then kept else kept + [last]
  }

  /** `removeUser`: delete the user; if dropping the user's socket connection
      fails (`socketDropped` is false) the deletion is rolled back. */
  method RemoveUser(users: UserModel, author: int, userId: int, socketDropped: bool)
    returns (r: Result<UserRemoveOutputDto>)
    modifies users`rows
    ensures LoginOf(old(users.rows), author).Err? ==> r == Err(NotFound)
    ensures LoginOf(old(users.rows), author).Ok? && FindUser(old(users.rows), userId).None? ==> r == Err(NotFound)
    ensures LoginOf(old(users.rows), author).Ok? && FindUser(old(users.rows), userId).Some? && !socketDropped ==> r == Err(BadRequest)
    ensures r.Ok? <==> LoginOf(old(users.rows), author).Ok? && FindUser(old(users.rows), userId).Some? && socketDropped
    ensures r.Err? ==> users.rows == old(users.rows)
    ensures r.Ok? ==>
      && users.rows == RemoveRow(old(users.rows), userId)
      && FindUser(users.rows, userId).None?
      && r.value == UserRemoveOutputDto(userId, "success")
  {
    var authorName := LoginOf(users.rows, author);
    if authorName.Err? {
      return Err(authorName.error);
    }
    if FindUser(users.rows, userId).None? {
      return Err(NotFound);
    }
    var rowsBefore := users.rows;
    users.rows := RemoveRow(users.rows, userId);
    if !socketDropped {
      // rollback()
      users.rows := rowsBefore;
      return Err(BadRequest);
    }
    // commit()
    assert forall i :: 0 <= i < |users.rows| ==> users.rows[i] in users.rows;
    r := Ok(UserRemoveOutputDto(userId, "success"));
  }

  /** ASSUMED `UserDao.loadAndFlush`: the given name and login replace the
      stored ones; missing fields keep them. */
  function ApplyUpdate(row: UserRecord, dto: UserUpdateDto): (r: UserRecord)
    ensures r.id == row.id && r.hash == row.hash && r.lastLogin == row.lastLogin
    ensures r.name == (if dto.name.Some? then dto.name.value else row.name)
    ensures r.login == (if dto.login.Some? then dto.login.value else row.login)
  {
    row.(name := if dto.name.Some? then dto.name.value else row.name,
         login := if dto.login.Some? then dto.login.value else row.login)
  }

  /** `updateUser`: an update that sets the password hash directly is refused
      before anything changes; otherwise the given fields are applied. */
  method UpdateUser(users: UserModel, author: int, userId: int, dto: UserUpdateDto)
    returns (r: Result<UserOutputDto>)
    modifies users`rows
    ensures LoginOf(old(users.rows), author).Err? ==> r == Err(NotFound)
    ensures LoginOf(old(users.rows), author).Ok? && FindUser(old(users.rows), userId).None? ==> r == Err(NotFound)
    ensures LoginOf(old(users.rows), author).Ok? && FindUser(old(users.rows), userId).Some? && dto.hash.Some? ==> r == Err(BadRequest)
    ensures r.Ok? <==> LoginOf(old(users.rows), author).Ok? && FindUser(old(users.rows), userId).Some? && dto.hash.None?
    ensures r.Err? ==> users.rows == old(users.rows)
    ensures r.Ok? ==>
      && var k := FindUser(old(users.rows), userId).value;
      && users.rows == old(users.rows)[k := ApplyUpdate(old(users.rows)[k], dto)]
      && users.rows[k].hash == old(users.rows)[k].hash
      && r.value == ToOutputDto(users.rows[k])
  {
    var authorName := LoginOf(users.rows, author);
    if authorName.Err? {
      return Err(authorName.error);
    }
    var found := FindUser(users.rows, userId);
    if found.None? {
      return Err(NotFound);
    }
    if dto.hash.Some? {
      return Err(BadRequest);
    }
    var k := found.value;
    users.rows := users.rows[k := ApplyUpdate(users.rows[k], dto)];
    // commit()
    r := Ok(ToOutputDto(users.rows[k]));
  }

  /** `getOne`. */
  function GetOne(rows: seq<UserRecord>, userId: int): (r: Result<UserOutputDto>)
    ensures r.Err? <==> forall i :: 0 <= i < |rows| ==> rows[i].id != userId
    ensures r.Err? ==> r.error == NotFound
    ensures r.Ok? ==> exists i :: 0 <= i < |rows| && rows[i].id == userId && r.value == ToOutputDto(rows[i])
  {
    match FindUser(rows, userId)
    case None => Err(NotFound)
    case Some(k) => Ok(ToOutputDto(rows[k]))
  }

  // ---------------------------------------------------------------- listing

  predicate StartsWith(s: string, part: string)
  {
    |part| <= |s| && s[..|part|] == part
  }

  /** Whether `part` occurs in `s` as a contiguous piece. */
  predicate Contains(s: string, part: string)
  {
    exists i :: 0 <= i <= |s| && StartsWith(s[i..], part)
  }

  /** ASSUMED `createLikeCond(pattern, default, column)`: no pattern gives the
      default condition, a pattern asks the column to contain it. */
  predicate Like(pattern: Option<string>, default: bool, column: string)
  {
    if pattern.None? then default else Contains(column, pattern.value)
  }

  /** The rows the listing's where-clause keeps. */
  predicate Matches(row: UserRecord, filter: UserFilterDto)
  {
    Like(filter.login, row.id != 0, row.login) && Like(filter.name, row.id != 0, row.name)
  }

  /** The kept rows as output records, in table order. */
  function Matching(rows: seq<UserRecord>, filter: UserFilterDto): (r: seq<UserOutputDto>)
    ensures forall u :: u in r <==> exists i :: 0 <= i < |rows| && Matches(rows[i], filter) && u == ToOutputDto(rows[i])
    decreases |rows|
  {
    if rows == [] then []
    else
      var rest := Matching(rows[1..], filter);
      assert forall i :: 0 < i < |rows| ==> rows[i] == rows[1..][i - 1];
      if Matches(rows[0], filter) then [ToOutputDto(rows[0])] + rest else rest
  }

  /** Ascending order of logins: lexicographic on characters. */
  predicate LoginLe(a: string, b: string)
    decreases |a|
  {
    a == [] || (b != [] && (a[0] < b[0] || (a[0] == b[0] && LoginLe(a[1..], b[1..]))))
  }

  lemma {:induction false} LoginLeTotal(a: string, b: string)
    ensures LoginLe(a, b) || LoginLe(b, a)
    decreases |a|
  {
    if a != [] && b != [] && a[0] == b[0] {
      LoginLeTotal(a[1..], b[1..]);
    }
  }

  lemma {:induction false} LoginLeTransitive(a: string, b: string, c: string)
    requires LoginLe(a, b) && LoginLe(b, c)
    ensures LoginLe(a, c)
    decreases |a|
  {
    if a != [] && a[0] == b[0] && b[0] == c[0] {
      LoginLeTransitive(a[1..], b[1..], c[1..]);
    }
  }

  /** Each login is at most the next one. */
  predicate SortedByLogin(s: seq<UserOutputDto>)
  {
    forall i :: 0 < i < |s| ==> LoginLe(s[i - 1].login, s[i].login)
  }

  /** Insert one record into a list sorted by login. */
  function InsertByLogin(x: UserOutputDto, s: seq<UserOutputDto>): (r: seq<UserOutputDto>)
    requires SortedByLogin(s)
    ensures SortedByLogin(r)
    ensures multiset(r) == multiset(s) + multiset{x}
    ensures |r| == |s| + 1 && (r[0] == x || (|s| > 0 && r[0] == s[0]))
    decreases |s|
  {
    if s == [] || LoginLe(x.login, s[0].login) then [x] + s
    else
      LoginLeTotal(x.login, s[0].login);
      var rest := InsertByLogin(x, s[1..]);
      assert s == [s[0]] + s[1..];
      [s[0]] + rest
  }

  /** Sort a list by login. */
  function SortByLogin(s: seq<UserOutputDto>): (r: seq<UserOutputDto>)
    ensures SortedByLogin(r)
    ensures multiset(r) == multiset(s)
    decreases |s|
  {
    if s == [] then []
    else
      assert s == [s[0]] + s[1..];
      InsertByLogin(s[0], SortByLogin(s[1..]))
  }

  /** In a list sorted by login, every login is at most every later one. */
  lemma {:induction false} SortedByLoginPairwise(s: seq<UserOutputDto>)
    requires SortedByLogin(s)
    ensures forall i, j :: 0 <= i < j < |s| ==> LoginLe(s[i].login, s[j].login)
    decreases |s|
  {
    if |s| > 1 {
      SortedByLoginPairwise(s[1..]);
      forall i, j | 0 <= i < j < |s|
        ensures LoginLe(s[i].login, s[j].login)
      {
        if i == 0 {
          if j > 1 {
            assert s[1..][0] == s[1] && s[1..][j - 1] == s[j];
            LoginLeTransitive(s[0].login, s[1].login, s[j].login);
          }
        } else {
          assert s[1..][i - 1] == s[i] && s[1..][j - 1] == s[j];
        }
      }
    }
  }

  /** `getByFilter`: the users matching the filter, as output records sorted by login. */
  function GetByFilter(rows: seq<UserRecord>, filter: UserFilterDto): (r: seq<UserOutputDto>)
    ensures forall i, j :: 0 <= i < j < |r| ==> LoginLe(r[i].login, r[j].login)
    ensures multiset(r) == multiset(Matching(rows, filter))
    ensures forall u :: u in r <==> exists i :: 0 <= i < |rows| && Matches(rows[i], filter) && u == ToOutputDto(rows[i])
  {
    var r := SortByLogin(Matching(rows, filter));
    SortedByLoginPairwise(r);
    assert forall u :: u in r <==> u in multiset(r);
    assert forall u :: u in Matching(rows, filter) <==> u in multiset(Matching(rows, filter));
    r
  }
}
