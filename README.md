# siberia_backend core, modelled in Dafny

This project models the business logic of the siberia warehouse back end:

- **Write-off transactions.** A write-off debits one stock, can be advanced to Processed, and can be cancelled so that the lines are credited back.
- **The RBAC link table.** It links users to rules, optionally on a stock, and to roles. Inserting a role also inserts its rules, each marked `simplifiedBy` with the id of the role row. The service adds and removes these links and answers stock-access queries.
- **Rollback handlers.** Handlers for user-role events and brand events invert a logged change. The brand service and the product-group DAO produce those events.
- **User accounts.** Creation with a unique login together with rules and roles as one unit, removal, update without a direct password hash, and the filtered listing sorted by login.
- **The four system-event records.** The model gives each one's event type, object name, description and rollback payload.

Tables whose rows a service updates in place are classes with `seq` or `map` fields, such as `RbacModel`, `BrandModel` and `TransactionModel`. Service operations are methods that state the whole new state of the tables they modify. Read-only queries are functions.

A database transaction is an atomic method body. When a step fails, every field the body changed, id counters included, is put back before the error is returned. Errors are `Result` values whose error kinds are those the source throws:

- NotFound for a missing entity;
- BadRequest;
- Forbidden;
- NotUnique;
- InsufficientStock;
- NotImplemented for `TODO(...)`;
- MalformedPayload for a payload of the wrong kind.

The source calls code whose text is not part of this model: stock ledger updates, status transitions, rule and role validation, unlinking, DAO internals and the SQL `like` helper. Each of these is a function marked ASSUMED in its doc comment. It has a stated contract and is never presented as verified behaviour of the source.

## Model

| member | source | states |
|---|---|---|
| `WriteOff.Create` | src/main/kotlin/siberia/modules/transaction/service/WriteOffTransactionService.kt:17-33 | Fails with NotFound for an unknown author, then with BadRequest for a missing `from` stock or a non-write-off type, before any change. A refused debit fails with InsufficientStock, and it fails exactly when the assumed debit fails. On success, the new row under a fresh id and the debit of exactly the requested lines are both kept. The result is Processed when the follow-up transition is allowed and otherwise still Created, so that step's failure is swallowed. The id counter advances by one on success; on failure neither table nor the counter changes. Never fails with Forbidden (see Left out). |
| `WriteOff.Process` | src/main/kotlin/siberia/modules/transaction/service/WriteOffTransactionService.kt:52-67 | Gives the StoredWriteOff errors: NotFound, Forbidden for a non-write-off, BadRequest for a null `fromId`. Otherwise succeeds exactly when the transition to Processed is allowed. A row that is no longer Created is refused with Forbidden. Only that row's status changes and the ledger is not touched. |
| `WriteOff.CancelCreation` | src/main/kotlin/siberia/modules/transaction/service/WriteOffTransactionService.kt:35-50 | Gives the same guard errors as Process. A row that is no longer Created is refused with Forbidden. Otherwise credits the stored lines back to the stored `fromId` and moves the row to CreationCancelled. A refused transition leaves both the ledger and the row as they were. |
| `WriteOff.CreateThenCancel` | src/main/kotlin/siberia/modules/transaction/service/WriteOffTransactionService.kt:24-49 | A write-off that was created and then cancelled leaves every quantity in every stock as it was before. A write-off that `create` already processed cannot be cancelled (Forbidden). |
| `WriteOff.StoredWriteOff` | src/main/kotlin/siberia/modules/transaction/service/WriteOffTransactionService.kt:53-60 | The guard of `processed` and `cancelCreation`, in source order. A missing row gives NotFound, a non-write-off gives Forbidden, a null `fromId` gives BadRequest. Otherwise it gives the source stock. |
| `WriteOff.CreateTransaction` | src/main/kotlin/siberia/modules/transaction/service/WriteOffTransactionService.kt:23 | ASSUMED `createTransaction`: a Created row with the request's type and lines, whose source stock is the target stock. |
| `WriteOff.ChangeStatusTo` | src/main/kotlin/siberia/modules/transaction/service/WriteOffTransactionService.kt:44-49 | ASSUMED `changeStatusTo`: succeeds iff the state machine allows the move and the author is authorised. On success only the status changes; otherwise Forbidden. |
| `StockLedger.RemoveProducts` | src/main/kotlin/siberia/modules/transaction/service/WriteOffTransactionService.kt:24 | ASSUMED `removeProducts`: a failure is InsufficientStock. |
| `StockLedger.RemoveProductsSucceedsIff` | src/main/kotlin/siberia/modules/transaction/service/WriteOffTransactionService.kt:24 | The debit succeeds iff, for every product, the stock holds at least the total amount the lines ask for. |
| `StockLedger.RemoveProductsSubtracts` | src/main/kotlin/siberia/modules/transaction/service/WriteOffTransactionService.kt:24 | A successful debit takes exactly the demanded amount of each product from the target stock and changes no other stock. |
| `StockLedger.AppendProductsAdds` | src/main/kotlin/siberia/modules/transaction/service/WriteOffTransactionService.kt:42 | A credit adds exactly the demanded amount of each product to the target stock and changes no other stock. |
| `StockLedger.AppendAfterRemoveRestores` | src/main/kotlin/siberia/modules/transaction/service/WriteOffTransactionService.kt:24-42 | Crediting back the lines of a successful debit restores every quantity. |
| `Data.FindUser` | src/main/kotlin/siberia/modules/user/service/UserService.kt:59 | `UserDao[id]`: finds a row with that id iff one exists. |
| `Data.LoginOf` | src/main/kotlin/siberia/modules/user/service/UserService.kt:29 | `UserDao[id].login`: the login of a row with that id, or NotFound iff there is none. |
| `AccessControl.ValidateRule` | src/main/kotlin/siberia/modules/user/service/UserAccessControlService.kt:61 | ASSUMED `validateRule`: known rule ⇒ its link; otherwise BadRequest. |
| `AccessControl.ValidateRole` | src/main/kotlin/siberia/modules/user/service/UserAccessControlService.kt:79 | ASSUMED `validateRole`: known role ⇒ the role with its rules; otherwise BadRequest. |
| `AccessControl.AppendRules` | src/main/kotlin/siberia/modules/user/service/UserAccessControlService.kt:36-45 | Appends one row per link, in order, with fresh ids, the given user and the given `simplifiedBy`. Returns its input unchanged. |
| `AccessControl.AppendRoles` | src/main/kotlin/siberia/modules/user/service/UserAccessControlService.kt:47-57 | Appends, for each role, its role row and then one row per rule of that role, and returns the roles unchanged. |
| `AccessControl.RoleRowsShape` | src/main/kotlin/siberia/modules/user/service/UserAccessControlService.kt:49-55 | The rows inserted for a list of roles carry fresh consecutive ids and all belong to the user. Every row is either a role row or a rule row whose `simplifiedBy` is the id of an earlier role row of that batch. |
| `AccessControl.ValidateRules` | src/main/kotlin/siberia/modules/user/service/UserAccessControlService.kt:60-62 | Succeeds iff every requested rule is known, giving the links one-to-one. Otherwise BadRequest. |
| `AccessControl.ValidateRoles` | src/main/kotlin/siberia/modules/user/service/UserAccessControlService.kt:78-80 | Succeeds iff every requested role is known, giving the catalogue's roles one-to-one. Otherwise BadRequest. |
| `AccessControl.AddRulesToUser` | src/main/kotlin/siberia/modules/user/service/UserAccessControlService.kt:59-66 | Validates every rule before inserting any. A refused rule leaves the table unchanged. On success the table grows by exactly the rule rows. |
| `AccessControl.AddRolesToUser` | src/main/kotlin/siberia/modules/user/service/UserAccessControlService.kt:77-83 | Validates every role before inserting any. A refused role leaves the table unchanged. On success the table grows by exactly the role blocks, and the id counter advances by the size of those blocks. |
| `AccessControl.NotifyTarget` | src/main/kotlin/siberia/modules/user/service/UserAccessControlService.kt:72-73 | The target is notified iff it is not the author. |
| `AccessControl.AddRules` | src/main/kotlin/siberia/modules/user/service/UserAccessControlService.kt:68-75 | Checks in order: an unknown target, then an unknown author, give NotFound; a bad rule gives BadRequest. Success returns one link per requested rule, in order. The table grows by exactly one direct row per requested rule, for the target. "New rules added" is logged against the target's login. A failure changes neither the table nor the log. The target is notified only on success and only when it is not the author. |
| `AccessControl.AddRoles` | src/main/kotlin/siberia/modules/user/service/UserAccessControlService.kt:85-92 | Like AddRules, for roles, with "New roles added". Success returns the catalogue role of each requested id. The table grows by exactly those roles' blocks, and the id counter advances by their size. |
| `AccessControl.UnlinkRules` | src/main/kotlin/siberia/modules/user/service/UserAccessControlService.kt:104 | ASSUMED `unlinkRules` on the target's direct rows. It deletes exactly the target's direct rule rows for the listed links. Every other user's rows, role rows and role-derived rows survive, in order. |
| `AccessControl.UnlinkRoles` | src/main/kotlin/siberia/modules/user/service/UserAccessControlService.kt:113 | ASSUMED `unlinkRoles`: deletes exactly the target's rows of the listed roles and the rule rows they simplified. Every other user's rows survive, in order. |
| `AccessControl.RemoveRules` | src/main/kotlin/siberia/modules/user/service/UserAccessControlService.kt:102-109 | An unknown target or author gives NotFound with no change. Otherwise the table becomes UnlinkRules and "Some rules were removed" is logged. The target is notified iff it is not the author. |
| `AccessControl.RemoveRoles` | src/main/kotlin/siberia/modules/user/service/UserAccessControlService.kt:111-118 | Like RemoveRules, with UnlinkRoles and "Some roles were removed". |
| `AccessControl.CheckAccessToStock` | src/main/kotlin/siberia/modules/user/service/UserAccessControlService.kt:120-124 | True iff some row links that user to that rule on that stock. |
| `AccessControl.TranslateToStockRulesMap` | src/main/kotlin/siberia/modules/user/service/UserAccessControlService.kt:127-138 | The `forEach` loop builds exactly the stock-to-rules map StockRulesMap. |
| `AccessControl.StockRulesMapGroupsByStock` | src/main/kotlin/siberia/modules/user/service/UserAccessControlService.kt:127-138 | The map's keys are exactly the stocks of the rows. Each key's list is the rule ids of that stock's rows, in row order. |
| `AccessControl.StockRulesMapKeepsEveryRow` | src/main/kotlin/siberia/modules/user/service/UserAccessControlService.kt:127-138 | The lengths of all lists add up to the number of rows. |
| `AccessControl.GetAvailableStocks` | src/main/kotlin/siberia/modules/user/service/UserAccessControlService.kt:154-161 | The grouped map of the user's rows that have both a rule and a stock. |
| `AccessControl.GetAvailableStocksByOperations` | src/main/kotlin/siberia/modules/user/service/UserAccessControlService.kt:142-152 | The grouped map of the same rows, without those of the `concreteStockView` rule. |
| `AccessControl.OperationsAreAvailableStocks` | src/main/kotlin/siberia/modules/user/service/UserAccessControlService.kt:142-161 | Every stock available for operations is an available stock. Its rule list never holds `concreteStockView` and is a subsequence of that stock's available rule list. |
| `AccessControl.FilterAvailable` | src/main/kotlin/siberia/modules/user/service/UserAccessControlService.kt:163-167 | A stock id is returned iff it is in the argument list and one of the user's rows is on it. |
| `UserRolesEvents.DecodeUserRoles` | src/main/kotlin/siberia/modules/user/service/UserRolesEventService.kt:20 | Decodes iff the payload is a user-roles payload, giving its user and roles. Otherwise MalformedPayload. |
| `UserRolesEvents.ExistingRoles` | src/main/kotlin/siberia/modules/user/service/UserRolesEventService.kt:22-32 | The payload roles that still exist: a subsequence of the payload, in payload order, holding a role iff it is in both the payload and the role table. |
| `UserRolesEvents.RollbackUpdate` | src/main/kotlin/siberia/modules/user/service/UserRolesEventService.kt:15-17 | Always fails with NotImplemented. |
| `UserRolesEvents.RollbackRemove` | src/main/kotlin/siberia/modules/user/service/UserRolesEventService.kt:19-35 | Decodes before touching anything. It succeeds iff the payload decodes and both its user and the author exist; roles deleted since cannot make it fail. On success the table grows by exactly the role blocks of the payload roles that still exist, in payload order, all for the payload's user, and the id counter advances by the size of those blocks. "New roles added" is logged, and the user is notified iff it is not the author. A failure changes nothing and notifies no one. |
| `UserRolesEvents.RollbackCreate` | src/main/kotlin/siberia/modules/user/service/UserRolesEventService.kt:37-53 | Decodes before touching anything. On success the table is UnlinkRoles of the payload's user and the payload roles that still exist, and other users' rows survive. "Some roles were removed" is logged, and the user is notified iff it is not the author. A failure changes nothing and notifies no one. |
| `Brands.GetOne` | src/main/kotlin/siberia/modules/brand/service/BrandService.kt:43-45 | The brand with that id iff it exists, which is then also in GetAll; otherwise NotFound. |
| `Brands.GetAll` | src/main/kotlin/siberia/modules/brand/service/BrandService.kt:39-41 | Holds a brand record iff it is a stored brand with that name. Every stored brand appears. |
| `Brands.Create` | src/main/kotlin/siberia/modules/brand/service/BrandService.kt:14-19 | Succeeds iff the author exists. Adds the input name under a fresh id, advances the id counter by one and logs a creation under the author's login. |
| `Brands.Update` | src/main/kotlin/siberia/modules/brand/service/BrandService.kt:21-27 | Succeeds iff the author and the brand exist. Only that brand's name changes, to the input name, and the update is logged with the old name as snapshot. |
| `Brands.Remove` | src/main/kotlin/siberia/modules/brand/service/BrandService.kt:29-37 | Succeeds iff the author and the brand exist. Deletes exactly that brand, logs the removal with its name, and reports success with "Brand successfully removed". |
| `BrandEvents.DecodeBrand` | src/main/kotlin/siberia/modules/brand/service/BrandEventService.kt:16 | Decodes iff the payload is a brand payload. Otherwise MalformedPayload. |
| `BrandEvents.RollbackUpdate` | src/main/kotlin/siberia/modules/brand/service/BrandEventService.kt:15-27 | When the brand no longer exists, succeeds without any change. Otherwise it is `update` with the snapshot name. |
| `BrandEvents.RollbackRemove` | src/main/kotlin/siberia/modules/brand/service/BrandEventService.kt:29-32 | Creates a brand unless decoding or the author lookup fails. The brand gets the snapshot name under a fresh id, with no existence or name check, and the id counter advances by one; on failure it does not move. The creation is logged under the author's login, like any `create`. |
| `BrandEvents.RollbackCreate` | src/main/kotlin/siberia/modules/brand/service/BrandEventService.kt:34-36 | Always fails with NotImplemented. |
| `BrandEvents.UpdateThenRollback` | src/main/kotlin/siberia/modules/brand/service/BrandEventService.kt:25 | After a successful `update`, rolling back the event it logged succeeds and gives every brand its name back. |
| `BrandEvents.RemoveThenRollback` | src/main/kotlin/siberia/modules/brand/service/BrandEventService.kt:29-32 | After a successful `remove`, rolling back the logged event brings the name back under a new id, different from the removed one. |
| `ProductGroups.GetProducts` | src/main/kotlin/siberia/modules/product/data/dao/ProductGroupDao.kt:18 | ASSUMED `getProducts`: holds a product iff it is linked to the group and exists in the product table. |
| `ProductGroups.GetProductsIdempotent` | src/main/kotlin/siberia/modules/product/data/dao/ProductGroupDao.kt:18-26 | Reading the products back from their own ids gives the same products. |
| `ProductGroups.ToOutputDto` | src/main/kotlin/siberia/modules/product/data/dao/ProductGroupDao.kt:19-20 | The group's id and current name. |
| `ProductGroups.ToFullOutput` | src/main/kotlin/siberia/modules/product/data/dao/ProductGroupDao.kt:22-23 | The same id and name as ToOutputDto, plus the group's current products. |
| `ProductGroups.RollbackOutput` | src/main/kotlin/siberia/modules/product/data/dao/ProductGroupDao.kt:25-26 | The name with the ids of the current products, exactly as ToFullOutput shows them. |
| `ProductGroups.LoadedNames` | src/main/kotlin/siberia/modules/product/data/dao/ProductGroupDao.kt:29 | A missing name keeps the old one and a given name replaces it. No other group changes. |
| `ProductGroups.LoadedLinks` | src/main/kotlin/siberia/modules/product/data/dao/ProductGroupDao.kt:30-31 | Given products replace the group's links and missing products leave them. No other group changes. |
| `ProductGroups.LoadAndFlush` | src/main/kotlin/siberia/modules/product/data/dao/ProductGroupDao.kt:28-34 | The group table after the partial update is LoadedNames and LoadedLinks. |
| `ProductGroups.SnapshotRestoresGroup` | src/main/kotlin/siberia/modules/product/data/dao/ProductGroupDao.kt:25-31 | Whatever partial update was applied since, loading a group's rollback snapshot back restores its full output. |
| `ProductGroups.Delete` | src/main/kotlin/siberia/modules/product/data/dao/ProductGroupDao.kt:36-46 | Logs one resettable remove event carrying the snapshot taken before the deletion, then deletes the group and its links. |
| `Users.CreateUser` | src/main/kotlin/siberia/modules/user/service/UserService.kt:25-55 | Checks in order: a taken login gives NotUnique before any insert, then an unknown author gives NotFound, then bad rules or roles give BadRequest. Success appends the user with the hashed password and returns (fresh id, name, login, last login 0). The RBAC table then grows by exactly the requested rules and then the requested roles, granted to the new user. Both id counters advance by the number of rows added. A failure leaves the user and RBAC rows and both counters as they were. Unique logins stay unique. |
| `Users.AddRulesAndRoles` | src/main/kotlin/siberia/modules/user/service/UserService.kt:37-45 | Succeeds iff every rule and every role is known. On success the table grows by exactly one direct row per requested rule, then the blocks of the requested roles, all for the user, and the id counter advances by the number of rows added. Otherwise every row added so far is rolled back and the counter is put back. |
| `Users.RemoveRow` | src/main/kotlin/siberia/modules/user/service/UserService.kt:61 | ASSUMED `delete`: keeps exactly the rows of other ids, in order. |
| `Users.RemoveUser` | src/main/kotlin/siberia/modules/user/service/UserService.kt:57-73 | An unknown author or user gives NotFound. A failure to drop the socket connection rolls the deletion back (BadRequest). Otherwise deletes the user and returns (id, "success"). |
| `Users.ApplyUpdate` | src/main/kotlin/siberia/modules/user/service/UserService.kt:82 | ASSUMED `loadAndFlush`: given name and login replace the stored ones. The hash, id and last login stay. |
| `Users.UpdateUser` | src/main/kotlin/siberia/modules/user/service/UserService.kt:75-86 | An unknown author or user gives NotFound. A non-null hash gives BadRequest before any change. Otherwise only that user's row is updated, and its hash is kept. |
| `Users.GetOne` | src/main/kotlin/siberia/modules/user/service/UserService.kt:88 | The output record of the user with that id, or NotFound iff there is none. |
| `Users.ToOutputDto` | src/main/kotlin/siberia/modules/user/service/UserService.kt:99-108 | Id, name and login of the row. A missing last login becomes 0. |
| `Users.Matching` | src/main/kotlin/siberia/modules/user/service/UserService.kt:91-96 | Holds a record iff it is the output of a row the login and name conditions accept. |
| `Users.SortByLogin` | src/main/kotlin/siberia/modules/user/service/UserService.kt:97 | A permutation of its input that is sorted by login. |
| `Users.GetByFilter` | src/main/kotlin/siberia/modules/user/service/UserService.kt:90-110 | Every login is at most every later one. The result is a permutation of the matching users' records. |
| `SystemEvents.SystemEvent.Type` | src/main/kotlin/siberia/modules/product/data/dto/systemevents/ProductCreateEvent.kt:13-14 | Create iff a product or collection creation; update iff a user update; remove iff a product removal. |
| `SystemEvents.SystemEvent.RollbackInstance` | src/main/kotlin/siberia/modules/user/data/dto/systemevents/user/UserUpdateEvent.kt:5-9 | Creation events carry "". A user update carries the payload its caller gave. The product removal defines none. |
| `SystemEvents.DescriptionQuotesObjectName` | src/main/kotlin/siberia/modules/user/data/dto/systemevents/user/UserUpdateEvent.kt:13-16 | Each description contains the event's object name right after its opening kind word. |
| `SystemEvents.DescriptionStatesEventType` | src/main/kotlin/siberia/modules/product/data/dto/systemevents/ProductCreateEvent.kt:13-16 | With the corrected removal text (see Findings), each description ends with the participle of its own event type: created, updated or removed. |
| `SystemEvents.DescriptionsSeparateEventTypes` | src/main/kotlin/siberia/modules/collection/data/dto/systemevents/CollectionCreateEvent.kt:12-15 | With the corrected removal text (see Findings), events of different types never share a description. The text as written breaks this; see RemoveDescriptionAsWrittenReadsAsCreate. |
| `SystemEvents.DescriptionDeterminesName` | src/main/kotlin/siberia/modules/collection/data/dto/systemevents/CollectionCreateEvent.kt:14-17 | Two collection events, or two user updates, with the same description have the same object name. |
| `SystemEvents.RemoveDescriptionAsWrittenReadsAsCreate` | src/main/kotlin/siberia/modules/product/data/dto/systemevents/ProductRemoveEvent.kt:10-11 | The product-removal description as written ends in "created." rather than "removed.". Removing product "P" with vendor code "Vendor Code = C" reads exactly like creating "P" with code "C". |
| `SystemEvents.SystemEvent.Description` | src/main/kotlin/siberia/modules/product/data/dto/systemevents/ProductRemoveEvent.kt:10-11 | Every description opens with its kind word: "Product ", "Collection " or "User ". The product-removal text is the corrected one ending in "was removed."; the text as written is `ProductRemoveDescriptionAsWritten` (see Findings). |
| `SystemEvents.SystemEvent.ObjectName` | src/main/kotlin/siberia/modules/product/data/dto/systemevents/ProductRemoveEvent.kt:12-13 | The object name is the created or removed product's name, the created collection's name or the updated user's login. |
| `AccessControl.RightsUpdated` | src/main/kotlin/siberia/modules/user/service/UserAccessControlService.kt:30-34 | The `logUpdate` entry: a UserRightsUpdated event carrying the author's login, the target's login and the description, which cannot be rolled back. |
| `Users.LoginTaken` | src/main/kotlin/siberia/modules/user/service/UserService.kt:27 | ASSUMED `checkUnique`: the login is taken iff some stored user has exactly that login. |
| `StockLedger.AppendProducts` | src/main/kotlin/siberia/modules/transaction/service/WriteOffTransactionService.kt:42 | ASSUMED `appendProducts`: a credit to one stock changes no other stock and lowers no quantity in that stock. |
| `WriteOff.CanTransition` | src/main/kotlin/siberia/modules/transaction/service/WriteOffTransactionService.kt:44-49 | ASSUMED transition relation: nothing leaves CreationCancelled or Cancelled, nothing returns to Created, no state moves to itself, and only a Created transaction can move to Processed or to CreationCancelled. |
| `WriteOff.ToOutputDto` | src/main/kotlin/siberia/modules/transaction/service/WriteOffTransactionService.kt:31 | ASSUMED `toOutputDto`: the output carries the id and the stored row's type, status, stocks and lines unchanged. |

## Left out

- `ProductService`, `BugReportService`, `Application` and the exception filter are not part of this model. They are ORM CRUD, queries built from unseen condition helpers, and server wiring.
- `getUserRules`/`getUserRoles` (UserAccessControlService.kt:94-100) read DAO properties whose code is not part of this model.
- Database transactions are atomic method bodies. The explicit `commit()` calls are points after which a step stands. One case is not modelled: Exposed runs a nested `transaction { }` inside the caller's, so an inner `commit()` also commits the caller's work so far. In particular, the commit inside `addRules(userDao, …)` would already make the new user of `createUser` durable before `addRoles` runs. `Users.CreateUser` follows the rollback the method evidently intends.
- `BrandEventService.rollbackUpdate`/`rollbackRemove` open no transaction of their own. The model treats each of them as one unit.
- Notifications are modelled as the returned `notified` user id (`NotifyTarget`); delivery and its failures are not modelled. Dropping a user's socket connection is the boolean `socketDropped`. The password hash is a function parameter.
- `UserRolesEventService` passes `shadowed = true` to `addRoles`/`removeRoles`, which take no such argument. The model calls them with the arguments they declare.
- The event logging inside `UserDao.new`/`delete`/`flush` and the `Boolean` that `loadAndFlush`'s `flush()` returns are not modelled. Neither is the BrandDao event payload beyond its brand snapshot, `BrandLogEntry`.
- Deleting a user does not cascade to that user's RBAC rows in the model. The cascade is part of the schema, which is not part of this model.
- `concreteStockView` is a configuration constant, so it is a parameter. Request types, statuses and event types are constructors, because only their distinctness matters.
- JSON encoding of rollback payloads is not modelled; payloads are tagged values (`RollbackPayload`).
- Brands.GetAll: returns a set, because the query fixes no order.
- Users.GetByFilter: the order is lexicographic by character code. The database collation is not part of this model.
- Users.ApplyUpdate: the fields of `UserUpdateDto` other than `hash` are assumed to be an optional name and login.
- Users.Like: `createLikeCond` is assumed to mean "the column contains the pattern" when a pattern is given. With no pattern it is the default condition `id != 0`.
- WriteOff.CreateTransaction: assumed never to fail, because the permission checks of `createTransaction` are not part of this model; so `WriteOff.Create` never returns Forbidden.
- Id counters are put back with the rows when a unit fails. A database sequence would keep the ids it handed out; the model does not capture those gaps.
- StockLedger.RemoveProducts: the debit is assumed to fail as a whole on a line that would go below zero. Quantities are unbounded naturals, not the column's integer width.

## Findings

| source | as written | input that shows it | evidently intended | confidence | as-written member | corrected member |
|---|---|---|---|---|---|---|
| src/main/kotlin/siberia/modules/product/data/dto/systemevents/ProductRemoveEvent.kt:10-11 | the removal description ends in "was created." | removing product "P" with vendor code "Vendor Code = C" is described exactly like creating product "P" with vendor code "C" | the description ends in "was removed." | not executed | `SystemEvents.RemoveDescriptionAsWrittenReadsAsCreate` | `SystemEvents.DescriptionStatesEventType` |
