/**
 * The guest collection as the handlers see it: documents kept under their
 * ObjectId in insertion order (the order in which an unsorted query returns
 * them), with the schema validator and the unique email index applied on
 * every write, and the query operations the handlers use.
 */
module GuestStore {
  import opened Base
  import opened Js
  import opened GuestSchema

  // ---------------------------------------------------------------------
  // Identifiers

  /** A 12-byte ObjectId, held as the values of its 24 hexadecimal digits. */
  datatype ObjectId = ObjectId(nibbles: seq<int>)

  predicate IsHexDigit(c: char)
  {
    IsDigit(c) || 'a' <= c <= 'f' || 'A' <= c <= 'F'
  }

  function HexValue(c: char): int
    requires IsHexDigit(c)
  {
    if IsDigit(c) then c as int - '0' as int
    else if 'a' <= c <= 'f' then c as int - 'a' as int + 10
    else c as int - 'A' as int + 10
  }

  /** `ObjectId.isValid(s)` for a path parameter: 24 hexadecimal digits. */
  predicate IsValidId(s: string)
  {
    |s| == 24 && forall i :: 0 <= i < |s| ==> IsHexDigit(s[i])
  }

  /** `new ObjectId(s)`: digits are read case-insensitively. */
  function ParseId(s: string): ObjectId
    requires IsValidId(s)
  {
    ObjectId(seq(24, i requires 0 <= i < 24 => HexValue(s[i])))
  }

  // ---------------------------------------------------------------------
  // The collection and its invariant

  datatype Entry = Entry(id: ObjectId, doc: Doc)

  /** The collection, in insertion order. */
  type Store = seq<Entry>

  predicate UniqueIds(s: Store)
  {
    forall i, j :: 0 <= i < j < |s| ==> s[i].id != s[j].id
  }

  /** The unique index on `email`. */
  predicate UniqueEmails(s: Store)
  {
    forall i, j :: 0 <= i < j < |s| ==> Field(s[i].doc, Email) != Field(s[j].doc, Email)
  }

  /** A document as the store keeps it: accepted by the schema, with no
      `undefined` left in it and no `_id` among its properties. */
  predicate WellStored(d: Doc)
  {
    && ValidGuest(d)
    && ObjectIdKey !in d
    && forall k :: k in d ==> d[k] != Undefined
  }

  /** What every write leaves true of the collection. */
  predicate Inv(s: Store)
  {
    && UniqueIds(s)
    && UniqueEmails(s)
    && forall e :: e in s ==> WellStored(e.doc)
  }

  /** `findOne({_id: id})`. */
  function Lookup(s: Store, id: ObjectId): (r: Option<Doc>)
    ensures r.Some? ==> Entry(id, r.value) in s
    ensures r.None? <==> forall i :: 0 <= i < |s| ==> s[i].id != id
  {
    if |s| == 0 then None
    else if s[0].id == id then Some(s[0].doc)
    else
      var r := Lookup(s[1..], id);
      assert forall i :: 1 <= i < |s| ==> s[i] == s[1..][i - 1];
      r
  }

  /** With unique ids, the lookup finds the one entry holding the id. */
  lemma LookupUnique(s: Store, i: int)
    requires UniqueIds(s) && 0 <= i < |s|
    ensures Lookup(s, s[i].id) == Some(s[i].doc)
  {
    var r := Lookup(s, s[i].id);
    var j :| 0 <= j < |s| && s[j] == Entry(s[i].id, r.value);
  }

  // ---------------------------------------------------------------------
  // Errors

  /** A write error, with the error code, the message and, for a validation
      failure, the text of the server's rule report. */
  datatype StoreError = StoreError(code: Option<int>, message: string, details: Option<string>)

  const DocumentValidationFailure: int := 121
  const DuplicateKey: int := 11000

  const ValidationError := StoreError(Some(DocumentValidationFailure), "Document failed validation",
                                      Some("{\"operatorName\":\"$jsonSchema\"}"))
  const DuplicateKeyError := StoreError(Some(DuplicateKey), "E11000 duplicate key error", None)
  const ImmutableField: int := 66
  const ImmutableIdError := StoreError(Some(ImmutableField),
    "Performing an update on the path '_id' would modify the immutable field '_id'", None)

  // ---------------------------------------------------------------------
  // Writes

  /** The driver writes `undefined` as BSON `null`. */
  function Serialize(d: Doc): (r: Doc)
    ensures r.Keys == d.Keys
    ensures forall k :: k in d ==> r[k] == (if d[k] == Undefined then Null else d[k])
  {
    map k | k in d :: if d[k] == Undefined then Null else d[k]
  }

  /** A document without `undefined` values is written as it is. */
  lemma SerializeDefined(d: Doc)
    requires forall k :: k in d ==> d[k] != Undefined
    ensures Serialize(d) == d
  {
  }

  /** Some entry other than `self` already holds this email. */
  predicate EmailTaken(s: Store, email: Value, self: Option<ObjectId>)
  {
    exists i :: 0 <= i < |s| && Some(s[i].id) != self && Field(s[i].doc, Email) == email
  }

  /** `insertOne(d)` under a freshly generated id. A client-supplied `_id`
      property is not kept (see the README). */
  function Insert(s: Store, id: ObjectId, d: Doc): Result<Store, StoreError>
  {
    var stored := Serialize(d - {ObjectIdKey});
    if !ValidGuest(stored) then Err(ValidationError)
    else if Lookup(s, id).Some? || EmailTaken(s, Field(stored, Email), None) then Err(DuplicateKeyError)
    else Ok(s + [Entry(id, stored)])
  }

  /** What `updateOne` reports besides the new collection. */
  datatype UpdateResult = UpdateResult(store: Store, matched: bool, modified: bool)

  /** The collection with the document of `id` replaced by `d`. */
  function Replace(s: Store, id: ObjectId, d: Doc): (r: Store)
    ensures |r| == |s|
    ensures forall i :: 0 <= i < |s| ==> r[i].id == s[i].id
    ensures forall i :: 0 <= i < |s| ==> r[i].doc == if s[i].id == id then d else s[i].doc
  {
    seq(|s|, i requires 0 <= i < |s| => if s[i].id == id then Entry(id, d) else s[i])
  }

  /** `updateOne({_id: id}, {$set: fields})`: the listed properties are
      overwritten, the others kept, and the result is validated. */
  function UpdateFields(s: Store, id: ObjectId, fields: Doc): Result<UpdateResult, StoreError>
  {
    match Lookup(s, id)
    case None => Ok(UpdateResult(s, false, false))
    case Some(current) =>
      var updated := current + Serialize(fields);
      if ObjectIdKey in fields then Err(ImmutableIdError)
      else if !ValidGuest(updated) then Err(ValidationError)
      else if EmailTaken(s, Field(updated, Email), Some(id)) then Err(DuplicateKeyError)
      else if updated == current then Ok(UpdateResult(s, true, false))
      else Ok(UpdateResult(Replace(s, id, updated), true, true))
  }

  /** `deleteOne({_id: id})`: the collection without that entry, and how many
      entries went. */
  function Delete(s: Store, id: ObjectId): (r: (Store, nat))
    ensures r.1 == 0 <==> Lookup(s, id).None?
    ensures forall e :: e in r.0 <==> e in s && e.id != id
    ensures |r.0| == |s| - r.1
  {
    if |s| == 0 then (s, 0)
    else
      var rest := Delete(s[1..], id);
      assert forall e :: e in s <==> e == s[0] || e in s[1..];
      if s[0].id == id then (rest.0, rest.1 + 1) else ([s[0]] + rest.0, rest.1)
  }

  // ---------------------------------------------------------------------
  // Queries

  /** An equality query: property to required value. */
  type Query = map<Key, Value>

  /** Equality on one property; a `null` in the query also matches a
      document that lacks the property. */
  predicate FieldMatches(actual: Value, wanted: Value)
  {
    if wanted == Null then actual == Null || actual == Undefined else actual == wanted
  }

  predicate Matches(d: Doc, q: Query)
  {
    forall k :: k in q ==> FieldMatches(Field(d, k), q[k])
  }

  /** `find(q)` in natural order. */
  function Matching(s: Store, q: Query): (r: seq<Entry>)
    ensures forall e :: e in r ==> e in s && Matches(e.doc, q)
    ensures forall e :: e in s && Matches(e.doc, q) ==> e in r
    ensures |r| <= |s|
  {
    if |s| == 0 then []
    else
      var rest := Matching(s[1..], q);
      assert forall e :: e in s <==> e == s[0] || e in s[1..];
      if Matches(s[0].doc, q) then [s[0]] + rest else rest
  }

  /** The creation time of an entry, when it has one. */
  function Stamp(e: Entry): Option<int>
  {
    var v := Field(e.doc, CreatedAt);
    if v.Date? then Some(v.ms) else None
  }

  /** `a` may come before `b` in newest-first order; an entry without a
      creation time sorts last. */
  predicate NotOlder(a: Entry, b: Entry)
  {
    Stamp(b).None? || (Stamp(a).Some? && Stamp(a).value >= Stamp(b).value)
  }

  predicate NewestFirst(s: seq<Entry>)
  {
    forall i, j :: 0 <= i < j < |s| ==> NotOlder(s[i], s[j])
  }

  /** Inserts `e` before the first entry it is not older than. */
  function InsertByAge(e: Entry, s: seq<Entry>): (r: seq<Entry>)
    requires NewestFirst(s)
    ensures NewestFirst(r)
    ensures multiset(r) == multiset(s) + multiset{e}
  {
    if |s| == 0 then [e]
    else if NotOlder(e, s[0]) then [e] + s
    else
      var rest := InsertByAge(e, s[1..]);
      assert s == [s[0]] + s[1..];
      assert forall x :: x in rest ==> x == e || x in s[1..] by {
        forall x | x in rest ensures x == e || x in s[1..] {
          assert x in multiset(rest);
        }
      }
      assert forall j :: 0 <= j < |rest| ==> NotOlder(s[0], rest[j]) by {
        forall j | 0 <= j < |rest| ensures NotOlder(s[0], rest[j]) {
          assert rest[j] in rest;
          if rest[j] != e {
            var k :| 0 <= k < |s[1..]| && s[1..][k] == rest[j];
            assert s[k + 1] == rest[j];
          }
        }
      }
      [s[0]] + rest
  }

  /** `sort({createdAt: -1})`: the same entries, newest first. */
  function SortNewestFirst(s: seq<Entry>): (r: seq<Entry>)
    ensures NewestFirst(r)
    ensures multiset(r) == multiset(s)
    ensures |r| == |s|
  {
    if |s| == 0 then []
    else
      assert s == [s[0]] + s[1..];
      InsertByAge(s[0], SortNewestFirst(s[1..]))
  }

  /** The entry with only the listed properties kept (its id always is). */
  function Project(e: Entry, keep: set<Key>): (r: Entry)
    ensures r.id == e.id
    ensures r.doc.Keys == e.doc.Keys * keep
    ensures forall k :: k in r.doc ==> r.doc[k] == e.doc[k]
  {
    Entry(e.id, map k | k in e.doc && k in keep :: e.doc[k])
  }

  /** A cursor: query, optional newest-first sort, optional limit (0 meaning
      none) and optional projection. */
  datatype FindRequest = FindRequest(query: Query, newestFirst: bool, limit: nat, projection: Option<set<Key>>)

  /** The properties a request keeps of an entry. */
  function ProjectionKeys(e: Entry, req: FindRequest): set<Key>
  {
    match req.projection
    case None => e.doc.Keys
    case Some(keep) => keep
  }

  function Projected(s: seq<Entry>, req: FindRequest): (r: seq<Entry>)
    ensures |r| == |s|
    ensures forall i :: 0 <= i < |s| ==> r[i] == Project(s[i], ProjectionKeys(s[i], req))
  {
    seq(|s|, i requires 0 <= i < |s| => Project(s[i], ProjectionKeys(s[i], req)))
  }

  /** The entries a cursor yields before projection. */
  function Cursor(s: Store, req: FindRequest): (r: seq<Entry>)
    ensures forall e :: e in r ==> e in s && Matches(e.doc, req.query)
    ensures req.limit > 0 ==> |r| <= req.limit
    ensures req.newestFirst ==> NewestFirst(r)
    ensures req.limit == 0 || |Matching(s, req.query)| <= req.limit ==>
              forall e :: e in s && Matches(e.doc, req.query) ==> e in r
    ensures !req.newestFirst && req.limit == 0 ==> r == Matching(s, req.query)
    ensures req.limit == 0 || |Matching(s, req.query)| <= req.limit ==> |r| == |Matching(s, req.query)|
    ensures 0 < req.limit < |Matching(s, req.query)| ==> |r| == req.limit
    ensures !req.newestFirst ==> r == Matching(s, req.query)[..|r|]
    ensures req.newestFirst ==>
              forall e, x :: e in r && x in Matching(s, req.query) && x !in r ==> NotOlder(e, x)
  {
    var matched := Matching(s, req.query);
    var ordered := if req.newestFirst then SortNewestFirst(matched) else matched;
    assert |ordered| == |matched|;
    assert forall e :: e in ordered <==> e in matched by {
      forall e ensures e in ordered <==> e in matched {
        assert e in ordered <==> e in multiset(ordered);
      }
    }
    if req.limit > 0 && req.limit < |ordered| then
      var r := ordered[..req.limit];
      assert forall e :: e in r ==> e in ordered;
      if req.newestFirst then
        PrefixIsNewest(ordered, req.limit);
        r
      else r
    else
      assert matched[..|ordered|] == matched;
      ordered
  }

  /** A newest-first sequence cut after `n` entries keeps entries no older
      than any it drops. */
  lemma PrefixIsNewest(s: seq<Entry>, n: nat)
    requires NewestFirst(s) && n <= |s|
    ensures forall e, x :: e in s[..n] && x in s && x !in s[..n] ==> NotOlder(e, x)
  {
    forall e, x | e in s[..n] && x in s && x !in s[..n] ensures NotOlder(e, x) {
      var i :| 0 <= i < n && s[..n][i] == e;
      var j :| 0 <= j < |s| && s[j] == x;
      assert forall k :: 0 <= k < n ==> s[k] in s[..n] by {
        forall k | 0 <= k < n ensures s[k] in s[..n] {
          assert s[..n][k] == s[k];
        }
      }
      assert s[i] == e;
    }
  }

  /** Projecting an entry onto all of its own properties leaves it as it is. */
  lemma ProjectAll(e: Entry)
    ensures Project(e, e.doc.Keys) == e
  {
    assert Project(e, e.doc.Keys).doc == e.doc;
  }

  /** Runs a cursor against the collection. */
  function Execute(s: Store, req: FindRequest): (r: seq<Entry>)
    ensures |r| == |Cursor(s, req)|
  {
    Projected(Cursor(s, req), req)
  }

  /** Every entry a cursor returns is a matching entry of the collection cut
      down to the projection, and there are at most `limit` of them. */
  lemma ExecuteSound(s: Store, req: FindRequest, e: Entry)
    requires e in Execute(s, req)
    ensures exists x :: x in s && Matches(x.doc, req.query) && e == Project(x, ProjectionKeys(x, req))
  {
    var c := Cursor(s, req);
    var r := Execute(s, req);
    var i :| 0 <= i < |r| && r[i] == e;
    assert c[i] in c;
    assert e == Project(c[i], ProjectionKeys(c[i], req));
  }

  /** A sorted cursor returns the newest matches: every entry it returns is
      cut from a match no older than any match whose cut it leaves out. */
  lemma ExecuteKeepsNewest(s: Store, req: FindRequest, e: Entry)
    requires req.newestFirst && e in Execute(s, req)
    ensures exists x :: && x in Matching(s, req.query) && e == Project(x, ProjectionKeys(x, req))
                        && forall y :: y in Matching(s, req.query) && Project(y, ProjectionKeys(y, req)) !in Execute(s, req) ==>
                             NotOlder(x, y)
  {
    var c := Cursor(s, req);
    var r := Execute(s, req);
    forall y | y in c ensures Project(y, ProjectionKeys(y, req)) in r {
      var j :| 0 <= j < |c| && c[j] == y;
      assert r[j] == Project(y, ProjectionKeys(y, req));
    }
    var i :| 0 <= i < |r| && r[i] == e;
    var x := c[i];
    assert x in c;
    assert e == Project(x, ProjectionKeys(x, req));
  }

  /** Without a limit, or with one the matches do not reach, a cursor
      returns every matching entry. */
  lemma ExecuteComplete(s: Store, req: FindRequest, x: Entry)
    requires req.limit == 0 || |Matching(s, req.query)| <= req.limit
    requires x in s && Matches(x.doc, req.query)
    ensures Project(x, ProjectionKeys(x, req)) in Execute(s, req)
  {
    var c := Cursor(s, req);
    var i :| 0 <= i < |c| && c[i] == x;
    assert Execute(s, req)[i] == Project(x, ProjectionKeys(x, req));
  }

  /** Without a projection the entries come back whole, so a sorted cursor
      returns them newest first and a plain one returns the matching
      entries in natural order. */
  lemma ExecuteUnprojected(s: Store, req: FindRequest)
    requires req.projection.None?
    ensures Execute(s, req) == Cursor(s, req)
    ensures req.newestFirst ==> NewestFirst(Execute(s, req))
    ensures !req.newestFirst && req.limit == 0 ==> Execute(s, req) == Matching(s, req.query)
  {
    var c := Cursor(s, req);
    forall i | 0 <= i < |c| ensures Execute(s, req)[i] == c[i] {
      ProjectAll(c[i]);
    }
  }

  // ---------------------------------------------------------------------
  // The invariant is kept by every write

  lemma InsertKeepsInv(s: Store, id: ObjectId, d: Doc)
    requires Inv(s) && Insert(s, id, d).Ok?
    ensures Inv(Insert(s, id, d).value)
    ensures Insert(s, id, d).value == s + [Entry(id, Serialize(d - {ObjectIdKey}))]
  {
    var stored := Serialize(d - {ObjectIdKey});
    var r := s + [Entry(id, stored)];
    assert forall i :: 0 <= i < |s| ==> r[i] == s[i];
    assert forall i :: 0 <= i < |s| ==> s[i].id != id by {
      assert Lookup(s, id).None?;
    }
    assert forall i :: 0 <= i < |s| ==> Field(s[i].doc, Email) != Field(stored, Email) by {
      assert !EmailTaken(s, Field(stored, Email), None);
    }
  }

  lemma UpdateKeepsInv(s: Store, id: ObjectId, fields: Doc)
    requires Inv(s) && UpdateFields(s, id, fields).Ok?
    ensures Inv(UpdateFields(s, id, fields).value.store)
  {
    var u := UpdateFields(s, id, fields).value;
    if u.modified {
      var current := Lookup(s, id).value;
      var updated := current + Serialize(fields);
      var j :| 0 <= j < |s| && s[j] == Entry(id, current);
      assert WellStored(updated) by {
        assert WellStored(s[j].doc);
      }
      forall i, k | 0 <= i < k < |u.store|
        ensures Field(u.store[i].doc, Email) != Field(u.store[k].doc, Email)
      {
        if s[i].id == id {
          assert !(Some(s[k].id) != Some(id) && Field(s[k].doc, Email) == Field(updated, Email));
        } else if s[k].id == id {
          assert !(Some(s[i].id) != Some(id) && Field(s[i].doc, Email) == Field(updated, Email));
        }
      }
    }
  }

  /** `$set` merges: the matched document becomes the old one overwritten by
      the listed properties, every other entry stays where and as it was,
      and the update counts as a modification exactly when something
      differs. */
  lemma UpdateFieldsMerges(s: Store, id: ObjectId, fields: Doc)
    requires Inv(s) && Lookup(s, id).Some? && UpdateFields(s, id, fields).Ok?
    ensures var u := UpdateFields(s, id, fields).value;
            var merged := Lookup(s, id).value + Serialize(fields);
            && u.matched
            && Lookup(u.store, id) == Some(merged)
            && (u.modified <==> merged != Lookup(s, id).value)
            && |u.store| == |s|
            && forall i :: 0 <= i < |s| && s[i].id != id ==> u.store[i] == s[i]
  {
    var u := UpdateFields(s, id, fields).value;
    var current := Lookup(s, id).value;
    var j :| 0 <= j < |s| && s[j] == Entry(id, current);
    if u.modified {
      UpdateKeepsInv(s, id, fields);
      assert u.store[j] == Entry(id, current + Serialize(fields));
      LookupUnique(u.store, j);
    } else {
      LookupUnique(s, j);
    }
  }

  /** Deleting keeps ids and emails unique. */
  lemma {:induction false} DeleteKeepsUnique(s: Store, id: ObjectId)
    requires UniqueIds(s) && UniqueEmails(s)
    ensures UniqueIds(Delete(s, id).0) && UniqueEmails(Delete(s, id).0)
    decreases |s|
  {
    if |s| > 0 {
      var rest := Delete(s[1..], id);
      assert UniqueIds(s[1..]) && UniqueEmails(s[1..]) by {
        assert forall i :: 0 <= i < |s| - 1 ==> s[1..][i] == s[i + 1];
      }
      DeleteKeepsUnique(s[1..], id);
      if s[0].id != id {
        var r := [s[0]] + rest.0;
        forall k | 0 < k < |r|
          ensures r[0].id != r[k].id && Field(r[0].doc, Email) != Field(r[k].doc, Email)
        {
          assert r[k] in rest.0;
          var m :| 0 <= m < |s[1..]| && s[1..][m] == r[k];
          assert s[m + 1] == r[k];
        }
        assert forall i :: 0 < i < |r| ==> r[i] == rest.0[i - 1];
      }
    }
  }

  lemma DeleteKeepsInv(s: Store, id: ObjectId)
    requires Inv(s)
    ensures Inv(Delete(s, id).0)
  {
    DeleteKeepsUnique(s, id);
  }
}
