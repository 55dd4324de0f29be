/** WriteOffTransactionService: a write-off debits one stock. `Create` records
    the transaction and debits the stock in one committed unit, then tries to
    advance it to Processed and ignores a failure of that second step;
    `CancelCreation` credits the lines back and moves the transaction to
    CreationCancelled; `Processed` moves it to Processed.

    AbstractTransactionService's `createTransaction` and `changeStatusTo` are not
    part of this model's source; CreateTransaction, CanTransition, ToOutputDto and
    ChangeStatusTo are ASSUMED contracts for them. */
module WriteOff {
  import opened Common
  import opened Data
  import opened StockLedger

  /** The request-type codes of the application configuration. */
  datatype RequestType = Income | Outcome | Transfer | WriteOff

  /** The request-status codes of the application configuration. */
  datatype RequestStatus = Created | Processed | CreationCancelled | Cancelled

  datatype TransactionInputDto = TransactionInputDto(
    requestType: RequestType, from: Option<int>, to: Option<int>, products: seq<ProductAmount>)

  /** A stored transaction. */
  datatype TransactionRow = TransactionRow(
    typeId: RequestType, status: RequestStatus, fromId: Option<int>, toId: Option<int>,
    inputProductsList: seq<ProductAmount>, createdBy: int)

  datatype TransactionOutputDto = TransactionOutputDto(
    id: int, requestType: RequestType, status: RequestStatus, from: Option<int>, to: Option<int>,
    products: seq<ProductAmount>)

  /** The transaction table; ids come from an auto-increment counter. */
  class TransactionModel {
    var rows: map<int, TransactionRow>
    var nextId: int

    ghost predicate Valid()
      reads this
    {
      forall id :: id in rows ==> id < nextId
    }

    constructor ()
      ensures Valid() && rows == map[]
    {
      rows := map[];
      nextId := 1;
    }
  }

  /** ASSUMED `toOutputDto`: the stored row under its id, field by field. */
  function ToOutputDto(id: int, row: TransactionRow): (o: TransactionOutputDto)
    ensures o.id == id && o.requestType == row.typeId && o.status == row.status
    ensures o.from == row.fromId && o.to == row.toId && o.products == row.inputProductsList
  {
    TransactionOutputDto(id, row.typeId, row.status, row.fromId, row.toId, row.inputProductsList)
  }

  /** ASSUMED `createTransaction`: a new row in state Created whose source stock
      is the given target stock and whose lines are the request's. */
  function CreateTransaction(author: int, dto: TransactionInputDto, targetStockId: int): (row: TransactionRow)
    ensures row.status == Created && row.fromId == Some(targetStockId)
    ensures row.typeId == dto.requestType && row.inputProductsList == dto.products && row.createdBy == author
  {
    TransactionRow(dto.requestType, Created, Some(targetStockId), dto.to, dto.products, author)
  }

  /** ASSUMED transition relation of the transaction state machine. */
  function CanTransition(from: RequestStatus, to: RequestStatus): (b: bool)
    ensures (from == CreationCancelled || from == Cancelled) ==> !b
    ensures to == Created ==> !b
    ensures b ==> from != to
    ensures to == CreationCancelled ==> (b <==> from == Created)
    ensures to == Processed ==> (b <==> from == Created)
  {
    || (from == Created && (to == Processed || to == CreationCancelled))
    || (from == Processed && to == Cancelled)
  }

  /** ASSUMED `changeStatusTo`: the move is allowed when the state machine
      permits it and `authorize` (the permission check made inside it, on the
      author and the stock) accepts; otherwise it fails with Forbidden. */
  function ChangeStatusTo(row: TransactionRow, author: int, stockId: int, status: RequestStatus,
                          authorize: (int, int, RequestStatus) -> bool): (r: Result<TransactionRow>)
    ensures r.Ok? <==> CanTransition(row.status, status) && authorize(author, stockId, status)
    ensures r.Ok? ==> r.value == row.(status := status)
    ensures r.Err? ==> r.error == Forbidden
  {
    if CanTransition(row.status, status) && authorize(author, stockId, status) then Ok(row.(status := status))
    else Err(Forbidden)
  }

  /** The checks that `processed` and `cancelCreation` make on the stored
      transaction, in source order: it exists, it is a write-off, it has a
      source stock. On success gives that stock. */
  function StoredWriteOff(rows: map<int, TransactionRow>, id: int): (r: Result<int>)
    ensures r.Ok? <==> id in rows && rows[id].typeId == WriteOff && rows[id].fromId.Some?
    ensures r.Ok? ==> r.value == rows[id].fromId.value
    ensures id !in rows ==> r == Err(NotFound)
    ensures id in rows && rows[id].typeId != WriteOff ==> r == Err(Forbidden)
    ensures id in rows && rows[id].typeId == WriteOff && rows[id].fromId.None? ==> r == Err(BadRequest)
  {
    if id !in rows then Err(NotFound)
    else if rows[id].typeId != WriteOff then Err(Forbidden)
    else if rows[id].fromId.None? then Err(BadRequest)
    else Ok(rows[id].fromId.value)
  }

  /** `processed`: move a stored write-off to Processed; the ledger is not touched. */
  method Process(transactions: TransactionModel, author: int, id: int,
                   authorize: (int, int, RequestStatus) -> bool) returns (r: Result<TransactionOutputDto>)
    modifies transactions`rows
    ensures StoredWriteOff(old(transactions.rows), id).Err? ==> r == Err(StoredWriteOff(old(transactions.rows), id).error)
    ensures r.Ok? <==>
      && StoredWriteOff(old(transactions.rows), id).Ok?
      && ChangeStatusTo(old(transactions.rows)[id], author, StoredWriteOff(old(transactions.rows), id).value, Processed, authorize).Ok?
    ensures StoredWriteOff(old(transactions.rows), id).Ok? && r.Err? ==> r.error == Forbidden
    ensures StoredWriteOff(old(transactions.rows), id).Ok? && old(transactions.rows)[id].status != Created ==> r == Err(Forbidden)
    ensures r.Err? ==> transactions.rows == old(transactions.rows)
    ensures r.Ok? ==>
      && transactions.rows == old(transactions.rows)[id := old(transactions.rows)[id].(status := Processed)]
      && r.value == ToOutputDto(id, transactions.rows[id])
  {
    var stored := StoredWriteOff(transactions.rows, id);
    if stored.Err? {
      return Err(stored.error);
    }
    var approved := ChangeStatusTo(transactions.rows[id], author, stored.value, Processed, authorize);
    if approved.Err? {
      return Err(approved.error);
    }
    transactions.rows := transactions.rows[id := approved.value];
    // commit()
    r := Ok(ToOutputDto(id, approved.value));
  }

  /** `cancelCreation`: credit the stored lines back to the source stock and move
      the transaction to CreationCancelled; a refused move rolls the credit back. */
  method CancelCreation(stocks: StockModel, transactions: TransactionModel, author: int, id: int,
                        authorize: (int, int, RequestStatus) -> bool) returns (r: Result<TransactionOutputDto>)
    modifies stocks`ledger, transactions`rows
    ensures StoredWriteOff(old(transactions.rows), id).Err? ==> r == Err(StoredWriteOff(old(transactions.rows), id).error)
    ensures r.Ok? <==>
      && StoredWriteOff(old(transactions.rows), id).Ok?
      && ChangeStatusTo(old(transactions.rows)[id], author, StoredWriteOff(old(transactions.rows), id).value, CreationCancelled, authorize).Ok?
    ensures StoredWriteOff(old(transactions.rows), id).Ok? && r.Err? ==> r.error == Forbidden
    ensures StoredWriteOff(old(transactions.rows), id).Ok? && old(transactions.rows)[id].status != Created ==> r == Err(Forbidden)
    ensures r.Err? ==> transactions.rows == old(transactions.rows) && stocks.ledger == old(stocks.ledger)
    ensures r.Ok? ==>
      && var row := old(transactions.rows)[id];
      && stocks.ledger == AppendProducts(old(stocks.ledger), row.fromId.value, row.inputProductsList)
      && transactions.rows == old(transactions.rows)[id := row.(status := CreationCancelled)]
      && r.value == ToOutputDto(id, transactions.rows[id])
  {
    var stored := StoredWriteOff(transactions.rows, id);
    if stored.Err? {
      return Err(stored.error);
    }
    var row := transactions.rows[id];
    var ledgerBefore := stocks.ledger;
    stocks.ledger := AppendProducts(stocks.ledger, stored.value, row.inputProductsList);
    var cancelled := ChangeStatusTo(row, author, stored.value, CreationCancelled, authorize);
    if cancelled.Err? {
      // the exception aborts the enclosing database transaction
      stocks.ledger := ledgerBefore;
      return Err(cancelled.error);
    }
    transactions.rows := transactions.rows[id := cancelled.value];
    r := Ok(ToOutputDto(id, cancelled.value));
  }

  /** `create`: check the request, record the transaction and debit the source
      stock in one committed unit, then try `processed` and keep the committed
      transaction, still Created, when that second step fails. */
  method Create(users: UserModel, stocks: StockModel, transactions: TransactionModel, author: int,
                dto: TransactionInputDto, authorize: (int, int, RequestStatus) -> bool)
    returns (r: Result<TransactionOutputDto>)
    requires transactions.Valid()
    modifies stocks`ledger, transactions`rows, transactions`nextId
    ensures transactions.Valid()
    ensures FindUser(users.rows, author).None? ==> r == Err(NotFound)
    ensures FindUser(users.rows, author).Some? && dto.from.None? ==> r == Err(BadRequest)
    ensures FindUser(users.rows, author).Some? && dto.from.Some? && dto.requestType != WriteOff ==> r == Err(BadRequest)
    ensures (FindUser(users.rows, author).Some? && dto.from.Some? && dto.requestType == WriteOff
             && RemoveProducts(old(stocks.ledger), dto.from.value, dto.products).Err?) ==> r == Err(InsufficientStock)
    ensures r.Ok? <==>
      && FindUser(users.rows, author).Some? && dto.from.Some? && dto.requestType == WriteOff
      && RemoveProducts(old(stocks.ledger), dto.from.value, dto.products).Ok?
    ensures r.Err? ==> stocks.ledger == old(stocks.ledger) && transactions.rows == old(transactions.rows)
    ensures transactions.nextId == if r.Ok? then old(transactions.nextId) + 1 else old(transactions.nextId)
    ensures r.Ok? ==>
      && var id := old(transactions.nextId);
      && var status := if authorize(author, dto.from.value, Processed) then Processed else Created;
      && id !in old(transactions.rows)
      && stocks.ledger == RemoveProducts(old(stocks.ledger), dto.from.value, dto.products).value
      && transactions.rows == old(transactions.rows)[id := CreateTransaction(author, dto, dto.from.value).(status := status)]
      && r.value == ToOutputDto(id, transactions.rows[id])
  {
    if FindUser(users.rows, author).None? {
      return Err(NotFound);
    }
    if dto.from.None? {
      return Err(BadRequest);
    }
    var targetStockId := dto.from.value;
    if dto.requestType != WriteOff {
      return Err(BadRequest);
    }
    var rowsBefore := transactions.rows;
    var id := transactions.nextId;
    var row := CreateTransaction(author, dto, targetStockId);
    transactions.rows := transactions.rows[id := row];
    transactions.nextId := id + 1;
    var debited := RemoveProducts(stocks.ledger, targetStockId, dto.products);
    if debited.Err? {
      // the exception aborts the enclosing database transaction
      transactions.rows := rowsBefore;
      transactions.nextId := id;
      return Err(debited.error);
    }
    stocks.ledger := debited.value;
    // commit(): from here on the transaction and the debit stand
    var advanced := Process(transactions, author, id, authorize);
    if advanced.Ok? {
      r := advanced;
    } else {
      r := Ok(ToOutputDto(id, row));
    }
  }

  /** `create` followed by `cancelCreation` on the result: cancelling a write-off
      that is still Created gives every quantity back, and a write-off that
      `create` already processed cannot be cancelled. */
  method CreateThenCancel(users: UserModel, stocks: StockModel, transactions: TransactionModel, author: int,
                          dto: TransactionInputDto, authorize: (int, int, RequestStatus) -> bool)
    returns (created: Result<TransactionOutputDto>, cancelled: Result<TransactionOutputDto>)
    requires transactions.Valid()
    modifies stocks`ledger, transactions`rows, transactions`nextId
    ensures created.Ok? && cancelled.Ok? ==> SameQuantities(stocks.ledger, old(stocks.ledger))
    ensures created.Ok? && created.value.status == Processed ==> cancelled == Err(Forbidden)
    ensures created.Ok? && created.value.status == Created && dto.from.Some? ==>
      (cancelled.Ok? <==> authorize(author, dto.from.value, CreationCancelled))
  {
    created := Create(users, stocks, transactions, author, dto, authorize);
    if created.Err? {
      cancelled := Err(created.error);
      return;
    }
    cancelled := CancelCreation(stocks, transactions, author, created.value.id, authorize);
    if cancelled.Ok? {
      AppendAfterRemoveRestores(old(stocks.ledger), dto.from.value, dto.products);
    }
  }
}
