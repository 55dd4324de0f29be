/** The system-event records that the catalogue and user services hand to the
    event log: ProductCreateEvent, ProductRemoveEvent, CollectionCreateEvent and
    UserUpdateEvent. Each is an immutable record whose event type, object name,
    description and rollback payload are derived from its constructor fields. */
module SystemEvents {
  import opened Common

  /** The three event-type codes of the application configuration; only their
      distinctness matters, so they are constructors rather than numbers. */
  datatype EventType = CreateEvent | UpdateEvent | RemoveEvent

  datatype SystemEvent =
    | ProductCreateEvent(author: string, createdProductName: string, createdProductVendorCode: string, eventObjectId: int)
    | ProductRemoveEvent(author: string, removedProductName: string, removedProductVendorCode: string)
    | CollectionCreateEvent(author: string, createdCollectionName: string, eventObjectId: int)
    | UserUpdateEvent(author: string, updatedUserLogin: string, eventObjectId: int, rollbackInstance: string)
  {
    /** The `eventType` getter. */
    function Type(): (t: EventType)
      ensures t == CreateEvent <==> ProductCreateEvent? || CollectionCreateEvent?
      ensures t == UpdateEvent <==> UserUpdateEvent?
      ensures t == RemoveEvent <==> ProductRemoveEvent?
    {
      match this
      case ProductCreateEvent(_, _, _, _) => CreateEvent
      case ProductRemoveEvent(_, _, _) => RemoveEvent
      case CollectionCreateEvent(_, _, _) => CreateEvent
      case UserUpdateEvent(_, _, _, _) => UpdateEvent
    }

    /** The `eventObjectName` getter. */
    function ObjectName(): (n: string)
      ensures ProductCreateEvent? ==> n == createdProductName
      ensures ProductRemoveEvent? ==> n == removedProductName
      ensures CollectionCreateEvent? ==> n == createdCollectionName
      ensures UserUpdateEvent? ==> n == updatedUserLogin
    {
      match this
      case ProductCreateEvent(_, name, _, _) => name
      case ProductRemoveEvent(_, name, _) => name
      case CollectionCreateEvent(_, name, _) => name
      case UserUpdateEvent(_, login, _, _) => login
    }

    /** The `eventDescription` getter. For a removed product this is the
        corrected text (see ProductRemoveDescriptionAsWritten). */
    function Description(): (d: string)
      ensures |KindWord()| <= |d| && d[..|KindWord()|] == KindWord()
    {
      match this
      case ProductCreateEvent(_, name, code, _) =>
        "Product " + name + " (Vendor Code = " + code + ") was created."
      case ProductRemoveEvent(_, name, code) =>
        "Product " + name + " (" + code + ") was removed."
      case CollectionCreateEvent(_, name, _) =>
        "Collection " + name + " was created."
      case UserUpdateEvent(_, login, _, _) =>
        "User " + login + " was updated."
    }

    /** The `rollbackInstance` getter. ProductRemoveEvent does not define one
        itself (it inherits whatever its base class gives), hence None. */
    function RollbackInstance(): (r: Option<string>)
      ensures Type() == CreateEvent ==> r == Some("")
      ensures UserUpdateEvent? ==> r == Some(rollbackInstance)
      ensures r.None? <==> ProductRemoveEvent?
    {
      match this
      case ProductCreateEvent(_, _, _, _) => Some("")
      case ProductRemoveEvent(_, _, _) => None
      case CollectionCreateEvent(_, _, _) => Some("")
      case UserUpdateEvent(_, _, _, payload) => Some(payload)
    }

    /** The kind word ("Product ", "Collection ", "User ") that opens the description. */
    function KindWord(): string
    {
      match this
      case ProductCreateEvent(_, _, _, _) => "Product "
      case ProductRemoveEvent(_, _, _) => "Product "
      case CollectionCreateEvent(_, _, _) => "Collection "
      case UserUpdateEvent(_, _, _, _) => "User "
    }
  }

  /** The past participle that closes a description of an event of type `t`. */
  function Participle(t: EventType): string
  {
    match t
    case CreateEvent => "created."
    case UpdateEvent => "updated."
    case RemoveEvent => "removed."
  }

  /** The description names the object right after the kind word. */
  lemma {:induction false} DescriptionQuotesObjectName(e: SystemEvent)
    ensures |e.KindWord()| + |e.ObjectName()| < |e.Description()|
    ensures e.Description()[|e.KindWord()|..|e.KindWord()| + |e.ObjectName()|] == e.ObjectName()
  {
    match e
    case ProductCreateEvent(_, name, code, _) =>
      MiddleOfConcat("Product ", name, " (Vendor Code = " + code + ") was created.");
    case ProductRemoveEvent(_, name, code) =>
      MiddleOfConcat("Product ", name, " (" + code + ") was removed.");
    case CollectionCreateEvent(_, name, _) =>
      MiddleOfConcat("Collection ", name, " was created.");
    case UserUpdateEvent(_, login, _, _) =>
      MiddleOfConcat("User ", login, " was updated.");
  }

  /** The middle part of a three-part string sits right after the first part. */
  lemma MiddleOfConcat(a: string, b: string, c: string)
    requires |c| > 0
    ensures |a| + |b| < |a + b + c|
    ensures (a + b + c)[|a|..|a| + |b|] == b
  {
    assert forall i :: 0 <= i < |b| ==> (a + b + c)[|a| + i] == b[i];
  }

  /** The description ends with the participle of the event's own type. */
  lemma {:induction false} DescriptionStatesEventType(e: SystemEvent)
    ensures |e.Description()| >= 8
    ensures e.Description()[|e.Description()| - 8..] == Participle(e.Type())
  {
    var d := e.Description();
    match e
    case ProductCreateEvent(_, name, code, _) =>
      assert d == ("Product " + name + " (Vendor Code = " + code + ") was ") + "created.";
    case ProductRemoveEvent(_, name, code) =>
      assert d == ("Product " + name + " (" + code + ") was ") + "removed.";
    case CollectionCreateEvent(_, name, _) =>
      assert d == ("Collection " + name + " was ") + "created.";
    case UserUpdateEvent(_, login, _, _) =>
      assert d == ("User " + login + " was ") + "updated.";
  }

  /** Events of different types can never be mistaken for one another by their descriptions. */
  lemma {:induction false} DescriptionsSeparateEventTypes(e1: SystemEvent, e2: SystemEvent)
    requires e1.Type() != e2.Type()
    ensures e1.Description() != e2.Description()
  {
    DescriptionStatesEventType(e1);
    DescriptionStatesEventType(e2);
    var p1, p2 := Participle(e1.Type()), Participle(e2.Type());
    assert p1[0] != p2[0];
  }

  /** Collection and user descriptions determine the object name they were built from. */
  lemma {:induction false} DescriptionDeterminesName(e1: SystemEvent, e2: SystemEvent)
    requires (e1.CollectionCreateEvent? && e2.CollectionCreateEvent?) || (e1.UserUpdateEvent? && e2.UserUpdateEvent?)
    requires e2.Description() == e1.Description()
    ensures e1.ObjectName() == e2.ObjectName()
  {
    DescriptionQuotesObjectName(e1);
    DescriptionQuotesObjectName(e2);
    assert |e1.ObjectName()| == |e2.ObjectName()|;
  }

  /** The description the remove event's getter builds as written in the source:
      it reuses the create event's wording. */
  function ProductRemoveDescriptionAsWritten(name: string, code: string): string
  {
    "Product " + name + " (" + code + ") was created."
  }

  /** The as-written remove description announces a creation, contradicting
      DescriptionStatesEventType; and a removal of product "P" with vendor code
      "Vendor Code = C" is described exactly like the creation of "P" with code "C". */
  lemma {:induction false} RemoveDescriptionAsWrittenReadsAsCreate(name: string, code: string, author: string, id: int)
    ensures var d := ProductRemoveDescriptionAsWritten(name, code);
      d[|d| - 8..] == Participle(CreateEvent) != Participle(ProductRemoveEvent(author, name, code).Type())
    ensures ProductRemoveDescriptionAsWritten("P", "Vendor Code = C")
         == ProductCreateEvent(author, "P", "C", id).Description()
  {
    AsWrittenEndsInCreated(name, code);
    assert Participle(CreateEvent)[0] != Participle(RemoveEvent)[0];
  }

  /** The as-written remove description closes with "created.". */
  lemma AsWrittenEndsInCreated(name: string, code: string)
    ensures var d := ProductRemoveDescriptionAsWritten(name, code);
      |d| >= 8 && d[|d| - 8..] == "created."
  {
    var d := ProductRemoveDescriptionAsWritten(name, code);
    assert d == ("Product " + name + " (" + code + ") was ") + "created.";
  }
}
