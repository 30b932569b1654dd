/**
 * The guest CRUD handlers: create, list, get, update and delete, each a
 * function from the collection and the request to the response and the
 * collection it leaves behind.
 */
module GuestController {
  import opened Base
  import opened Js
  import opened Text
  import opened GuestSchema
  import opened GuestStore

  datatype Body =
    | Failure(error: string)
    | Created(id: ObjectId, guest: Doc)
    | Listing(count: nat, guests: seq<Entry>)
    | Found(entry: Entry)
    | Deleted(message: string)

  datatype Response = Response(status: int, body: Body)

  /** A handler's response and the collection it leaves behind. */
  datatype Handled = Handled(response: Response, store: Store)

  const InvalidId := "ID invalide"
  const NotFound := "Invité non trouvé"
  const DuplicateEmail := "Un invité avec cet email existe déjà"
  const ValidationPrefix := "Erreur de validation des données: "
  const BadGuestCount := "Le nombre d'invités doit être un nombre entre 1 et 10"
  const CreateFailed := "Erreur lors de la création de l'invité"
  const UpdateFailed := "Erreur lors de la mise à jour de l'invité"
  const ReloadFailed := "Erreur lors de la récupération de l'invité mis à jour"
  const DeletedMessage := "Invité supprimé avec succès"

  // ---------------------------------------------------------------------
  // Store errors

  /** The validation message as the handlers build it: the rule report is
      an object, and concatenating an object to a string gives
      "[object Object]", whatever the report says. */
  function ValidationMessageAsWritten(e: StoreError): (m: string)
    ensures StartsWith(m, ValidationPrefix)
    ensures e.details.Some? ==> m[|ValidationPrefix|..] == "[object Object]"
    ensures e.details.None? ==> m[|ValidationPrefix|..] == e.message
  {
    var m := ValidationPrefix + (if e.details.Some? then "[object Object]" else e.message);
    assert m[..|ValidationPrefix|] == ValidationPrefix;
    m
  }

  /** Without a rule report, the written and the corrected messages are the
      same. */
  lemma ValidationMessagesAgree(e: StoreError)
    requires e.details.None?
    ensures ValidationMessage(e) == ValidationMessageAsWritten(e)
  {
  }

  /** The corrected message tells two non-empty rule reports apart. */
  lemma ValidationReportKept(a: StoreError, b: StoreError)
    requires a.details.Some? && a.details.value != ""
    requires b.details.Some? && b.details.value != ""
    requires a.details != b.details
    ensures ValidationMessage(a) != ValidationMessage(b)
  {
    assert ValidationMessage(a)[|ValidationPrefix|..] != ValidationMessage(b)[|ValidationPrefix|..];
  }

  /** Two validation failures with different rule reports produce the same
      message: the report never reaches the client. */
  lemma ValidationReportLost()
    ensures var a := StoreError(Some(DocumentValidationFailure), "Document failed validation", Some("{\"guestCount\":0}"));
            var b := StoreError(Some(DocumentValidationFailure), "Document failed validation", Some("{\"email\":\"x\"}"));
            a.details != b.details && ValidationMessageAsWritten(a) == ValidationMessageAsWritten(b)
  {
  }

  /** The validation message with the rule report's text, when there is a
      non-empty one, in place of the error message. */
  function ValidationMessage(e: StoreError): (m: string)
    ensures StartsWith(m, ValidationPrefix)
    ensures e.details.Some? && e.details.value != "" ==> m[|ValidationPrefix|..] == e.details.value
    ensures (e.details.None? || e.details.value == "") ==> m[|ValidationPrefix|..] == e.message
  {
    var m := ValidationPrefix + (if e.details.Some? && e.details.value != "" then e.details.value else e.message);
    assert m[..|ValidationPrefix|] == ValidationPrefix;
    m
  }

  /** The catch block of create and update: every store error is a 400, and
      a validation failure carries the message as the handlers build it. */
  function WriteFailure(e: StoreError, fallback: string): (r: Response)
    ensures r.status == 400 && r.body.Failure?
    ensures e.code == Some(DocumentValidationFailure) ==> StartsWith(r.body.error, ValidationPrefix)
    ensures e.code == Some(DocumentValidationFailure) ==> r.body.error == ValidationMessageAsWritten(e)
    ensures e.code == Some(DuplicateKey) ==> r.body.error == DuplicateEmail
    ensures e.code != Some(DocumentValidationFailure) && e.code != Some(DuplicateKey) ==>
              r.body.error == (if e.message != "" then e.message else fallback)
  {
    if e.code == Some(DocumentValidationFailure) then Response(400, Failure(ValidationMessageAsWritten(e)))
    else if e.code == Some(DuplicateKey) then Response(400, Failure(DuplicateEmail))
    else Response(400, Failure(if e.message != "" then e.message else fallback))
  }

  // ---------------------------------------------------------------------
  // Create and list

  /** The document a create request stores: the body's properties plus the
      two timestamps. */
  function NewGuest(body: Doc, now: int): (g: Doc)
    ensures CreatedAt in g && g[CreatedAt] == Date(now)
    ensures UpdatedAt in g && g[UpdatedAt] == Date(now)
    ensures ObjectIdKey !in g
    ensures forall k :: k in body && k !in {ObjectIdKey, CreatedAt, UpdatedAt} ==> k in g && g[k] == body[k]
    ensures forall k :: k in g ==> k in body || k == CreatedAt || k == UpdatedAt
  {
    (body - {ObjectIdKey})[CreatedAt := Date(now)][UpdatedAt := Date(now)]
  }

  /** `createGuest`: a 201 with the new id and the stored properties when the
      store accepts the document, otherwise a 400 and no change. */
  function CreateGuest(s: Store, body: Doc, now: int, newId: ObjectId): (h: Handled)
    requires Inv(s)
    ensures Inv(h.store)
    ensures h.response.status == 201 ==>
              && h.response.body == Created(newId, NewGuest(body, now))
              && h.store == s + [Entry(newId, Serialize(NewGuest(body, now)))]
    ensures h.response.status != 201 ==> h.response.status == 400 && h.store == s && h.response.body.Failure?
  {
    var guest := NewGuest(body, now);
    assert guest - {ObjectIdKey} == guest;
    match Insert(s, newId, guest)
    case Ok(s') =>
      InsertKeepsInv(s, newId, guest);
      Handled(Response(201, Created(newId, guest)), s')
    case Err(e) => Handled(WriteFailure(e, CreateFailed), s)
  }

  /** The email a create checks for duplicates is the one in the request,
      once the document is known to meet the schema. */
  lemma CreateEmail(body: Doc, now: int)
    requires ValidGuest(Serialize(NewGuest(body, now)))
    ensures Field(Serialize(NewGuest(body, now)), Email) == Field(body, Email)
  {
    ValidGuestShape(Serialize(NewGuest(body, now)));
  }

  /** A create succeeds exactly when the document meets the schema and its
      email is not on file yet (the fresh id never collides). */
  lemma CreateGuestAccepted(s: Store, body: Doc, now: int, newId: ObjectId)
    requires Inv(s) && Lookup(s, newId).None?
    ensures CreateGuest(s, body, now, newId).response.status == 201 <==>
              ValidGuest(Serialize(NewGuest(body, now))) && !EmailTaken(s, Field(body, Email), None)
  {
    var guest := NewGuest(body, now);
    assert guest - {ObjectIdKey} == guest;
    if ValidGuest(Serialize(guest)) {
      CreateEmail(body, now);
    }
  }

  /** The two expected failures of a create and their messages. */
  lemma CreateGuestRejected(s: Store, body: Doc, now: int, newId: ObjectId)
    requires Inv(s)
    ensures var h := CreateGuest(s, body, now, newId);
            !ValidGuest(Serialize(NewGuest(body, now))) ==>
              && h == Handled(Response(400, Failure(ValidationMessageAsWritten(ValidationError))), s)
              && StartsWith(h.response.body.error, ValidationPrefix)
    ensures ValidGuest(Serialize(NewGuest(body, now))) && EmailTaken(s, Field(body, Email), None) ==>
              CreateGuest(s, body, now, newId).response == Response(400, Failure(DuplicateEmail))
  {
    var guest := NewGuest(body, now);
    assert guest - {ObjectIdKey} == guest;
    if ValidGuest(Serialize(guest)) {
      CreateEmail(body, now);
    }
  }

  /** `getAllGuests`: every guest, newest first, with their count. */
  function GetAllGuests(s: Store): (r: Response)
    ensures r.status == 200 && r.body.Listing?
    ensures r.body.count == |r.body.guests|
    ensures multiset(r.body.guests) == multiset(s)
    ensures NewestFirst(r.body.guests)
  {
    var all := SortNewestFirst(s);
    Response(200, Listing(|all|, all))
  }

  // ---------------------------------------------------------------------
  // Get, update, delete

  /** `getGuestById`: 400 for a malformed id, before the store is read; 404
      for an unknown one; otherwise the guest. */
  function GetGuestById(s: Store, id: string): (r: Response)
    ensures !IsValidId(id) ==> r == Response(400, Failure(InvalidId))
    ensures IsValidId(id) && Lookup(s, ParseId(id)).None? ==> r == Response(404, Failure(NotFound))
    ensures IsValidId(id) && Lookup(s, ParseId(id)).Some? ==>
              r.status == 200 && r.body.Found? && r.body.entry in s && r.body.entry.id == ParseId(id)
  {
    if !IsValidId(id) then Response(400, Failure(InvalidId))
    else
      var oid := ParseId(id);
      match Lookup(s, oid)
      case None => Response(404, Failure(NotFound))
      case Some(d) => Response(200, Found(Entry(oid, d)))
  }

  /** A created guest can be read back under its id, with the properties
      the store kept. */
  lemma CreateThenGet(s: Store, body: Doc, now: int, id: string)
    requires Inv(s) && IsValidId(id)
    requires CreateGuest(s, body, now, ParseId(id)).response.status == 201
    ensures GetGuestById(CreateGuest(s, body, now, ParseId(id)).store, id) ==
              Response(200, Found(Entry(ParseId(id), Serialize(NewGuest(body, now)))))
  {
    var s' := CreateGuest(s, body, now, ParseId(id)).store;
    assert s'[|s|] == Entry(ParseId(id), Serialize(NewGuest(body, now)));
    LookupUnique(s', |s|);
  }

  /** The properties of an update body that reach the store: never `_id` or
      the timestamps, and never a property whose value is `undefined`;
      `null` values are kept. */
  function Sanitize(body: Doc): (r: Doc)
    ensures ObjectIdKey !in r && CreatedAt !in r && UpdatedAt !in r
    ensures forall k :: k in r ==> r[k] != Undefined
    ensures forall k :: k in body && k !in {ObjectIdKey, CreatedAt, UpdatedAt} && body[k] != Undefined ==>
              k in r && r[k] == body[k]
    ensures r.Keys <= body.Keys
  {
    map k | k in body && k !in {ObjectIdKey, CreatedAt, UpdatedAt} && body[k] != Undefined :: body[k]
  }

  /** A number the guest-count check lets through: not NaN, between 1 and 10. */
  predicate AcceptedCount(n: Number)
  {
    n.Finite? && 1.0 <= n.r <= 10.0
  }

  /** The guest-count check: a present `guestCount` is converted with
      `Number(...)` and must lie in [1, 10]; the number replaces it. */
  function CheckGuestCount(data: Doc): (r: Option<Doc>)
    ensures GuestCount !in data ==> r == Some(data)
    ensures GuestCount in data ==>
              (r.Some? <==> AcceptedCount(ToNumber(data[GuestCount])))
    ensures r.Some? && GuestCount in data ==> r.value == data[GuestCount := Num(ToNumber(data[GuestCount]))]
  {
    if GuestCount in data then
      var n := ToNumber(data[GuestCount]);
      if n.NaN? || n.r < 1.0 || n.r > 10.0 then None
      else Some(data[GuestCount := Num(n)])
    else Some(data)
  }

  /** The `$set` document of an update. */
  function UpdateSet(data: Doc, now: int): Doc
  {
    data[UpdatedAt := Date(now)]
  }

  /** The write step of `updateGuest`, once the guest is known to exist:
      a store error is a 400 and changes nothing; otherwise the merged
      document is returned. The two other branches answer an entry that
      vanished between the existence check and the write. */
  function ApplyUpdate(s: Store, oid: ObjectId, fields: Doc): (h: Handled)
    requires Inv(s) && Lookup(s, oid).Some?
    ensures Inv(h.store)
    ensures h.response.status == 200 || h.response.status == 400
    ensures h.response.status == 400 ==> h.store == s && h.response.body.Failure?
    ensures UpdateFields(s, oid, fields).Err? ==>
              h.response == WriteFailure(UpdateFields(s, oid, fields).error, UpdateFailed)
    ensures h.response.status == 200 <==> UpdateFields(s, oid, fields).Ok?
    ensures h.response.status == 200 ==>
              && h.store == UpdateFields(s, oid, fields).value.store
              && h.response.body == Found(Entry(oid, Lookup(s, oid).value + Serialize(fields)))
  {
    match UpdateFields(s, oid, fields)
    case Err(e) => Handled(WriteFailure(e, UpdateFailed), s)
    case Ok(u) =>
      UpdateFieldsMerges(s, oid, fields);
      UpdateKeepsInv(s, oid, fields);
      if !u.matched then Handled(Response(404, Failure(NotFound)), s)
      else
        match Lookup(u.store, oid)
        case None =>
          if u.modified then Handled(Response(500, Failure(ReloadFailed)), u.store)
          else Handled(Response(404, Failure(NotFound)), u.store)
        case Some(d) => Handled(Response(200, Found(Entry(oid, d))), u.store)
  }

  /** `updateGuest`. The ladder is: malformed id (400), unknown id (404),
      guest count out of range (400), store error (400), success (200). */
  function UpdateGuest(s: Store, id: string, body: Doc, now: int): (h: Handled)
    requires Inv(s)
    ensures Inv(h.store)
    ensures h.response.status in {200, 400, 404}
    ensures h.response.status != 200 ==> h.store == s
    ensures !IsValidId(id) ==> h.response == Response(400, Failure(InvalidId))
    ensures IsValidId(id) && Lookup(s, ParseId(id)).None? ==> h.response == Response(404, Failure(NotFound))
    ensures IsValidId(id) && Lookup(s, ParseId(id)).Some? && CheckGuestCount(Sanitize(body)).None? ==>
              h.response == Response(400, Failure(BadGuestCount))
  {
    if !IsValidId(id) then Handled(Response(400, Failure(InvalidId)), s)
    else
      var oid := ParseId(id);
      if Lookup(s, oid).None? then Handled(Response(404, Failure(NotFound)), s)
      else
        match CheckGuestCount(Sanitize(body))
        case None => Handled(Response(400, Failure(BadGuestCount)), s)
        case Some(data) => ApplyUpdate(s, oid, UpdateSet(data, now))
  }

  /** The document a successful update leaves: the old one overwritten by
      the checked body and the new `updatedAt`. `updatedAt` is the request
      time, every property the body sets (other than `_id` and the
      timestamps, and unless it is `undefined`) takes the body's value,
      `guestCount` as a number, and all other properties keep their old
      value. */
  function Merged(before: Doc, body: Doc, now: int): (after: Doc)
    requires CheckGuestCount(Sanitize(body)).Some?
    ensures Field(after, UpdatedAt) == Date(now)
    ensures forall k :: k in Sanitize(body) && k != GuestCount ==> Field(after, k) == body[k]
    ensures GuestCount in Sanitize(body) ==> Field(after, GuestCount) == Num(ToNumber(body[GuestCount]))
    ensures forall k :: k !in Sanitize(body) && k != UpdatedAt ==> Field(after, k) == Field(before, k)
  {
    before + UpdateSet(CheckGuestCount(Sanitize(body)).value, now)
  }

  /** A successful update returns and stores the merge of the old document
      with the body, and leaves every other guest where and as it was. */
  lemma UpdateGuestMerges(s: Store, id: string, body: Doc, now: int)
    requires Inv(s)
    requires UpdateGuest(s, id, body, now).response.status == 200
    ensures IsValidId(id) && Lookup(s, ParseId(id)).Some? && CheckGuestCount(Sanitize(body)).Some?
    ensures var h := UpdateGuest(s, id, body, now);
            var oid := ParseId(id);
            var after := Merged(Lookup(s, oid).value, body, now);
            && h.response.body == Found(Entry(oid, after))
            && Lookup(h.store, oid) == Some(after)
            && |h.store| == |s|
            && (forall i :: 0 <= i < |s| && s[i].id != oid ==> h.store[i] == s[i])
  {
    var oid := ParseId(id);
    assert IsValidId(id) && Lookup(s, oid).Some?;
    var data := CheckGuestCount(Sanitize(body)).value;
    var fields := UpdateSet(data, now);
    assert UpdateGuest(s, id, body, now) == ApplyUpdate(s, oid, fields);
    assert forall k :: k in fields ==> fields[k] != Undefined;
    SerializeDefined(fields);
    UpdateFieldsMerges(s, oid, fields);
  }

  /** The write step refuses a merged document the schema rejects, and one
      whose email another guest has, each with its message. */
  lemma ApplyUpdateRejected(s: Store, oid: ObjectId, fields: Doc)
    requires Inv(s) && Lookup(s, oid).Some? && ObjectIdKey !in fields
    ensures var after := Lookup(s, oid).value + Serialize(fields);
            !ValidGuest(after) ==>
              ApplyUpdate(s, oid, fields) == Handled(Response(400, Failure(ValidationMessageAsWritten(ValidationError))), s)
    ensures var after := Lookup(s, oid).value + Serialize(fields);
            ValidGuest(after) && EmailTaken(s, Field(after, Email), Some(oid)) ==>
              ApplyUpdate(s, oid, fields) == Handled(Response(400, Failure(DuplicateEmail)), s)
    ensures var after := Lookup(s, oid).value + Serialize(fields);
            ValidGuest(after) && !EmailTaken(s, Field(after, Email), Some(oid)) ==>
              ApplyUpdate(s, oid, fields).response.status == 200
  {
  }

  /** The two expected failures of an update that passed the id and count
      checks, and their messages: a merged document the schema refuses, and
      an email another guest already has. Neither changes the collection. */
  lemma UpdateGuestRejected(s: Store, id: string, body: Doc, now: int)
    requires Inv(s)
    requires IsValidId(id) && Lookup(s, ParseId(id)).Some? && CheckGuestCount(Sanitize(body)).Some?
    ensures var h := UpdateGuest(s, id, body, now);
            var after := Merged(Lookup(s, ParseId(id)).value, body, now);
            !ValidGuest(after) ==>
              && h == Handled(Response(400, Failure(ValidationMessageAsWritten(ValidationError))), s)
              && StartsWith(h.response.body.error, ValidationPrefix)
    ensures var h := UpdateGuest(s, id, body, now);
            var after := Merged(Lookup(s, ParseId(id)).value, body, now);
            ValidGuest(after) && EmailTaken(s, Field(after, Email), Some(ParseId(id))) ==>
              h == Handled(Response(400, Failure(DuplicateEmail)), s)
    ensures var h := UpdateGuest(s, id, body, now);
            var after := Merged(Lookup(s, ParseId(id)).value, body, now);
            ValidGuest(after) && !EmailTaken(s, Field(after, Email), Some(ParseId(id))) ==>
              h.response.status == 200
  {
    var fields := UpdateSet(CheckGuestCount(Sanitize(body)).value, now);
    UpdateGuestWrites(s, id, body, now);
    ApplyUpdateRejected(s, ParseId(id), fields);
  }

  /** Past the id and count checks, an update is the write step on the
      checked body, and the document it writes is the merge. */
  lemma UpdateGuestWrites(s: Store, id: string, body: Doc, now: int)
    requires Inv(s)
    requires IsValidId(id) && Lookup(s, ParseId(id)).Some? && CheckGuestCount(Sanitize(body)).Some?
    ensures var fields := UpdateSet(CheckGuestCount(Sanitize(body)).value, now);
            && ObjectIdKey !in fields
            && UpdateGuest(s, id, body, now) == ApplyUpdate(s, ParseId(id), fields)
            && Merged(Lookup(s, ParseId(id)).value, body, now) == Lookup(s, ParseId(id)).value + Serialize(fields)
  {
    var fields := UpdateSet(CheckGuestCount(Sanitize(body)).value, now);
    assert forall k :: k in fields ==> fields[k] != Undefined;
    SerializeDefined(fields);
  }

  /** `deleteGuest`: 400 for a malformed id, 404 for an unknown one,
      otherwise 200 and the collection without that guest. */
  function DeleteGuest(s: Store, id: string): (h: Handled)
    requires Inv(s)
    ensures Inv(h.store)
    ensures !IsValidId(id) ==> h == Handled(Response(400, Failure(InvalidId)), s)
    ensures IsValidId(id) && Lookup(s, ParseId(id)).None? ==> h == Handled(Response(404, Failure(NotFound)), s)
    ensures IsValidId(id) && Lookup(s, ParseId(id)).Some? ==>
              && h.response == Response(200, Deleted(DeletedMessage))
              && Lookup(h.store, ParseId(id)).None?
              && forall e :: e in h.store <==> e in s && e.id != ParseId(id)
  {
    if !IsValidId(id) then Handled(Response(400, Failure(InvalidId)), s)
    else
      var oid := ParseId(id);
      var (s', deleted) := Delete(s, oid);
      DeleteKeepsInv(s, oid);
      if deleted == 0 then Handled(Response(404, Failure(NotFound)), s)
      else Handled(Response(200, Deleted(DeletedMessage)), s')
  }
}
