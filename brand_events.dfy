/** BrandEventService: rolling back brand events from their stored snapshot. */
module BrandEvents {
  import opened Common
  import opened Data
  import opened SystemEvents
  import opened Brands

  /** `getRollbackData<...>()` on a brand event: the brand id and the brand
      snapshot; any other payload fails to decode. */
  function DecodeBrand(event: SystemEventOutputDto): (r: Result<(int, BrandInputDto)>)
    ensures r.Ok? <==> event.rollbackInstance.BrandPayload?
    ensures r.Ok? ==> r.value == (event.rollbackInstance.objectId, event.rollbackInstance.brand)
    ensures r.Err? ==> r.error == MalformedPayload
  {
    match event.rollbackInstance
    case BrandPayload(objectId, brand) => Ok((objectId, brand))
    case _ => Err(MalformedPayload)
  }

  /** `rollbackUpdate`: put the snapshot back on the brand if the brand still
      exists; if it does not, nothing happens. */
  method RollbackUpdate(users: UserModel, brands: BrandModel, log: SystemEventModel, author: int, event: SystemEventOutputDto)
    returns (r: Result<()>)
    requires brands.Valid()
    modifies brands`names, log
    ensures brands.Valid()
    ensures DecodeBrand(event).Err? ==> r == Err(MalformedPayload)
    ensures r.Err? || (DecodeBrand(event).Ok? && DecodeBrand(event).value.0 !in old(brands.names)) ==>
      brands.names == old(brands.names) && log.entries == old(log.entries)
    ensures DecodeBrand(event).Ok? && DecodeBrand(event).value.0 !in old(brands.names) ==> r == Ok(())
    ensures DecodeBrand(event).Ok? && DecodeBrand(event).value.0 in old(brands.names) ==>
      && (r.Ok? <==> LoginOf(users.rows, author).Ok?)
      && (r.Ok? ==>
            var (id, dto) := DecodeBrand(event).value;
            && brands.names == old(brands.names)[id := dto.name]
            && log.entries == old(log.entries) + [BrandLogEntry(LoginOf(users.rows, author).value, UpdateEvent, id, old(brands.names)[id])])
  {
    var decoded := DecodeBrand(event);
    if decoded.Err? {
      return Err(decoded.error);
    }
    var (id, dto) := decoded.value;
    if id in brands.names {
      var updated := Update(users, brands, log, author, id, dto);
      if updated.Err? {
        return Err(updated.error);
      }
    }
    r := Ok(());
  }

  /** `rollbackRemove`: create a brand from the snapshot, under a new id,
      without checking for an existing brand of that name. */
  method RollbackRemove(users: UserModel, brands: BrandModel, log: SystemEventModel, author: int, event: SystemEventOutputDto)
    returns (r: Result<BrandOutputDto>)
    requires brands.Valid()
    modifies brands, log
    ensures brands.Valid()
    ensures DecodeBrand(event).Err? ==> r == Err(MalformedPayload)
    ensures r.Ok? <==> DecodeBrand(event).Ok? && LoginOf(users.rows, author).Ok?
    ensures r.Err? ==> brands.names == old(brands.names) && log.entries == old(log.entries)
    ensures brands.nextId == if r.Ok? then old(brands.nextId) + 1 else old(brands.nextId)
    ensures r.Ok? ==>
      && r.value.id == old(brands.nextId) && r.value.id !in old(brands.names)
      && r.value.name == DecodeBrand(event).value.1.name
      && brands.names == old(brands.names)[r.value.id := r.value.name]
      && log.entries == old(log.entries) + [BrandLogEntry(LoginOf(users.rows, author).value, CreateEvent, r.value.id, "")]
  {
    var decoded := DecodeBrand(event);
    if decoded.Err? {
      return Err(decoded.error);
    }
    r := Create(users, brands, log, author, decoded.value.1);
  }

  /** `rollbackCreate`: not implemented, it always throws. */
  function RollbackCreate(event: SystemEventOutputDto): (r: Result<()>)
    ensures r.Err? && r.error == NotImplemented
  {
    Err(NotImplemented)
  }

  /** The event a rollback handler receives for a logged brand event. */
  function StoredEvent(id: int, entry: LogEntry): SystemEventOutputDto
    requires entry.event.BrandEvent?
  {
    SystemEventOutputDto(id, entry.event.author, entry.event.payload)
  }

  /** `update` followed by `rollbackUpdate` of the event it logged gives every
      brand its name back. */
  method UpdateThenRollback(users: UserModel, brands: BrandModel, log: SystemEventModel, author: int,
                            brandId: int, dto: BrandInputDto)
    returns (updated: Result<BrandOutputDto>, rolledBack: Result<()>)
    requires brands.Valid()
    modifies brands`names, log
    ensures updated.Ok? ==> rolledBack.Ok? && brands.names == old(brands.names)
  {
    updated := Update(users, brands, log, author, brandId, dto);
    if updated.Err? {
      return updated, Err(updated.error);
    }
    var event := StoredEvent(|log.entries|, log.entries[|log.entries| - 1]);
    rolledBack := RollbackUpdate(users, brands, log, author, event);
  }

  /** `remove` followed by `rollbackRemove` of the event it logged brings the
      name back, but under a new id: the old id is not reused. */
  method RemoveThenRollback(users: UserModel, brands: BrandModel, log: SystemEventModel, author: int, brandId: int)
    returns (removed: Result<BrandRemoveResultDto>, restored: Result<BrandOutputDto>)
    requires brands.Valid()
    modifies brands, log
    ensures removed.Ok? ==>
      && brandId in old(brands.names)
      && restored.Ok?
      && restored.value.id != brandId
      && restored.value.name == old(brands.names)[brandId]
      && brands.names == (old(brands.names) - {brandId})[restored.value.id := old(brands.names)[brandId]]
  {
    removed := Remove(users, brands, log, author, brandId);
    if removed.Err? {
      return removed, Err(removed.error);
    }
    var event := StoredEvent(|log.entries|, log.entries[|log.entries| - 1]);
    restored := RollbackRemove(users, brands, log, author, event);
  }
}
