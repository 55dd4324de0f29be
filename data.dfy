/** Tables and records shared by several services: the user table (UserModel
    joined with UserLoginModel), the system event log (SystemEventModel) and the
    rollback payloads stored in it. */
module Data {
  import opened Common
  import opened SystemEvents

  // ---------------------------------------------------------------- users

  /** A UserModel row joined with its UserLoginModel row; `lastLogin` is None
      when the user has never logged in (the left join yields null). */
  datatype UserRecord = UserRecord(id: int, name: string, login: string, hash: string, lastLogin: Option<int>)

  /** The user table, in scan order. Ids come from an auto-increment counter. */
  class UserModel {
    var rows: seq<UserRecord>
    var nextId: int

    ghost predicate Valid()
      reads this
    {
      && (forall i :: 0 <= i < |rows| ==> rows[i].id < nextId)
      && (forall i, j :: 0 <= i < j < |rows| ==> rows[i].id != rows[j].id)
    }

    constructor ()
      ensures Valid() && rows == []
    {
      rows := [];
      nextId := 1;
    }
  }

  /** Position of the row with that id: the lookup behind `UserDao[id]`. */
  function FindUser(rows: seq<UserRecord>, id: int): (r: Option<nat>)
    ensures r.Some? ==> r.value < |rows| && rows[r.value].id == id
    ensures r.None? <==> forall i :: 0 <= i < |rows| ==> rows[i].id != id
    decreases |rows|
  {
    if rows == [] then None
    else if rows[0].id == id then Some(0)
    else
      match FindUser(rows[1..], id)
      case None => None
      case Some(k) => Some(k + 1)
  }

  /** `UserDao[id].login`; a missing user is Exposed's entity-not-found error. */
  function LoginOf(rows: seq<UserRecord>, id: int): (r: Result<string>)
    ensures r.Err? <==> forall i :: 0 <= i < |rows| ==> rows[i].id != id
    ensures r.Err? ==> r.error == NotFound
    ensures r.Ok? ==> exists i :: 0 <= i < |rows| && rows[i].id == id && rows[i].login == r.value
  {
    match FindUser(rows, id)
    case None => Err(NotFound)
    case Some(k) => Ok(rows[k].login)
  }

  // ------------------------------------------------------- rollback payloads

  datatype BrandInputDto = BrandInputDto(name: string)

  /** A product group's creation data, also its rollback snapshot. */
  datatype ProductGroupCreateDto = ProductGroupCreateDto(name: string, products: seq<int>)

  /** The stored `rollbackInstance` of an event: the object id together with the
      object DTO, tagged by the shape its handler expects to decode. */
  datatype RollbackPayload =
    | NoPayload
    | BrandPayload(objectId: int, brand: BrandInputDto)
    | UserRolesPayload(objectId: int, roles: seq<int>)
    | ProductGroupPayload(objectId: int, group: ProductGroupCreateDto)

  /** A stored event as a rollback handler receives it. */
  datatype SystemEventOutputDto = SystemEventOutputDto(id: int, author: string, rollbackInstance: RollbackPayload)

  // ------------------------------------------------------------ event log

  /** The events the modelled services log. BrandEvent stands for the event that
      the brand DAO records when it is created, flushed or deleted under an
      author's name, with the snapshot a rollback would restore. */
  datatype LoggedEvent =
    | UserRightsUpdated(author: string, target: string, description: string)
    | ProductGroupRemoveEvent(author: string, groupName: string, eventObjectId: int, payload: RollbackPayload)
    | BrandEvent(author: string, eventType: EventType, brandId: int, payload: RollbackPayload)

  datatype LogEntry = LogEntry(event: LoggedEvent, resettable: bool)

  /** The append-only system event table. */
  class SystemEventModel {
    var entries: seq<LogEntry>

    constructor ()
      ensures entries == []
    {
      entries := [];
    }
  }
}
