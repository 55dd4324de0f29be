/** BrandService: create, rename and remove brands, each attributed to the
    author's login in the event log, and read them back.

    BrandDao's event logging is not part of this model's source; BrandLogEntry
    is an ASSUMED contract for the event it records. */
module Brands {
  import opened Common
  import opened Data
  import opened SystemEvents

  datatype BrandOutputDto = BrandOutputDto(id: int, name: string)
  datatype BrandRemoveResultDto = BrandRemoveResultDto(success: bool, message: string)

  /** The brand table: id to name; ids come from an auto-increment counter. */
  class BrandModel {
    var names: map<int, string>
    var nextId: int

    ghost predicate Valid()
      reads this
    {
      forall id :: id in names ==> id < nextId
    }

    constructor ()
      ensures Valid() && names == map[]
    {
      names := map[];
      nextId := 1;
    }
  }

  /** ASSUMED: the event BrandDao logs under the author's login. A creation
      carries no snapshot; an update or a removal carries the brand as it was
      before, and can be reset. */
  function BrandLogEntry(authorLogin: string, eventType: EventType, id: int, before: string): LogEntry
  {
    if eventType == CreateEvent then LogEntry(BrandEvent(authorLogin, eventType, id, NoPayload), false)
    else LogEntry(BrandEvent(authorLogin, eventType, id, BrandPayload(id, BrandInputDto(before))), true)
  }

  /** `getOne`: the brand with that id. */
  function GetOne(names: map<int, string>, brandId: int): (r: Result<BrandOutputDto>)
    ensures r.Ok? <==> brandId in names
    ensures r.Ok? ==> r.value.id == brandId && r.value.name == names[brandId]
    ensures r.Ok? ==> r.value in GetAll(names)
    ensures r.Err? ==> r.error == NotFound
  {
    if brandId in names then Ok(BrandOutputDto(brandId, names[brandId])) else Err(NotFound)
  }

  /** `getAll`: every brand, as a set since the query fixes no order. */
  function GetAll(names: map<int, string>): (r: set<BrandOutputDto>)
    ensures forall b :: b in r <==> b.id in names && names[b.id] == b.name
    ensures forall id :: id in names ==> exists b :: b in r && b.id == id
  {
    var r := set id | id in names :: BrandOutputDto(id, names[id]);
    assert forall id :: id in names ==> BrandOutputDto(id, names[id]) in r;
    r
  }

  /** `create`: a new brand with the input name under a fresh id. */
  method Create(users: UserModel, brands: BrandModel, log: SystemEventModel, author: int, dto: BrandInputDto)
    returns (r: Result<BrandOutputDto>)
    requires brands.Valid()
    modifies brands, log
    ensures brands.Valid()
    ensures r.Ok? <==> LoginOf(users.rows, author).Ok?
    ensures r.Err? ==> r.error == NotFound
    ensures r.Err? ==> brands.names == old(brands.names) && brands.nextId == old(brands.nextId) && log.entries == old(log.entries)
    ensures r.Ok? ==>
      && r.value.id == old(brands.nextId) && r.value.id !in old(brands.names)
      && r.value.name == dto.name
      && brands.names == old(brands.names)[r.value.id := dto.name]
      && brands.nextId == old(brands.nextId) + 1
      && GetOne(brands.names, r.value.id) == Ok(r.value)
      && log.entries == old(log.entries) + [BrandLogEntry(LoginOf(users.rows, author).value, CreateEvent, r.value.id, "")]
  {
    var authorName := LoginOf(users.rows, author);
    if authorName.Err? {
      return Err(authorName.error);
    }
    var id := brands.nextId;
    brands.names := brands.names[id := dto.name];
    brands.nextId := id + 1;
    log.entries := log.entries + [BrandLogEntry(authorName.value, CreateEvent, id, "")];
    r := Ok(BrandOutputDto(id, dto.name));
  }

  /** `update`: rename the given brand; every other brand keeps its name. */
  method Update(users: UserModel, brands: BrandModel, log: SystemEventModel, author: int, brandId: int, dto: BrandInputDto)
    returns (r: Result<BrandOutputDto>)
    requires brands.Valid()
    modifies brands`names, log
    ensures brands.Valid()
    ensures r.Ok? <==> LoginOf(users.rows, author).Ok? && brandId in old(brands.names)
    ensures r.Err? ==> r.error == NotFound
    ensures r.Err? ==> brands.names == old(brands.names) && log.entries == old(log.entries)
    ensures r.Ok? ==>
      && brands.names == old(brands.names)[brandId := dto.name]
      && r.value == BrandOutputDto(brandId, dto.name)
      && GetOne(brands.names, brandId) == Ok(r.value)
      && (forall id :: id != brandId ==> GetOne(brands.names, id) == GetOne(old(brands.names), id))
      && log.entries == old(log.entries) + [BrandLogEntry(LoginOf(users.rows, author).value, UpdateEvent, brandId, old(brands.names)[brandId])]
  {
    var authorName := LoginOf(users.rows, author);
    if authorName.Err? {
      return Err(authorName.error);
    }
    if brandId !in brands.names {
      return Err(NotFound);
    }
    var before := brands.names[brandId];
    brands.names := brands.names[brandId := dto.name];
    log.entries := log.entries + [BrandLogEntry(authorName.value, UpdateEvent, brandId, before)];
    r := Ok(BrandOutputDto(brandId, dto.name));
  }

  /** `remove`: delete the given brand and report success. */
  method Remove(users: UserModel, brands: BrandModel, log: SystemEventModel, author: int, brandId: int)
    returns (r: Result<BrandRemoveResultDto>)
    requires brands.Valid()
    modifies brands`names, log
    ensures brands.Valid()
    ensures r.Ok? <==> LoginOf(users.rows, author).Ok? && brandId in old(brands.names)
    ensures r.Err? ==> r.error == NotFound
    ensures r.Err? ==> brands.names == old(brands.names) && log.entries == old(log.entries)
    ensures r.Ok? ==>
      && brands.names == old(brands.names) - {brandId}
      && GetOne(brands.names, brandId) == Err(NotFound)
      && r.value == BrandRemoveResultDto(true, "Brand successfully removed")
      && log.entries == old(log.entries) + [BrandLogEntry(LoginOf(users.rows, author).value, RemoveEvent, brandId, old(brands.names)[brandId])]
  {
    var authorName := LoginOf(users.rows, author);
    if authorName.Err? {
      return Err(authorName.error);
    }
    if brandId !in brands.names {
      return Err(NotFound);
    }
    var before := brands.names[brandId];
    brands.names := brands.names - {brandId};
    log.entries := log.entries + [BrandLogEntry(authorName.value, RemoveEvent, brandId, before)];
    r := Ok(BrandRemoveResultDto(true, "Brand successfully removed"));
  }
}
