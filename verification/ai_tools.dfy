/**
 * The three tools the chat assistant may call against the guest
 * collection: aggregated statistics, a bounded listing and a lookup by
 * email, together with the translation of their filters into a query and
 * the dispatch of a requested call.
 */
module AiTools {
  import opened Base
  import opened Js
  import opened GuestSchema
  import opened GuestStore

  // ---------------------------------------------------------------------
  // Filters

  /** The six optional filters; `Undefined` marks one that was not given. */
  datatype GuestFilters = GuestFilters(
    isAttending: Value,
    dinnerParticipation: Value,
    brunchParticipation: Value,
    needsAccommodation: Value,
    dinnerChoice: Value,
    dessertChoice: Value)

  const NoFilters := GuestFilters(Undefined, Undefined, Undefined, Undefined, Undefined, Undefined)

  /** The properties a filter may constrain. */
  const FilterKeys: set<Key> :=
    {IsAttending, DinnerParticipation, BrunchParticipation, NeedsAccommodation, DinnerChoice, DessertChoice}

  /** The filter given for a property (`Undefined` for any other property). */
  function FilterOn(f: GuestFilters, k: Key): Value
  {
    match k
    case IsAttending => f.isAttending
    case DinnerParticipation => f.dinnerParticipation
    case BrunchParticipation => f.brunchParticipation
    case NeedsAccommodation => f.needsAccommodation
    case DinnerChoice => f.dinnerChoice
    case DessertChoice => f.dessertChoice
    case _ => Undefined
  }

  /** The properties in the order the query builder tests them. */
  const FilterOrder: seq<Key> :=
    [IsAttending, DinnerParticipation, BrunchParticipation, NeedsAccommodation, DinnerChoice, DessertChoice]

  /** Tests each property of `order` in turn and adds its filter to the
      query unless the filter is `undefined`. */
  function AddFilters(q: Query, f: GuestFilters, order: seq<Key>): Query
    decreases |order|
  {
    if |order| == 0 then q
    else
      var k := order[0];
      AddFilters(if FilterOn(f, k) != Undefined then q[k := FilterOn(f, k)] else q, f, order[1..])
  }

  /** A property ends up in the query when it was there already or is one of the
      keys folded over with a filter that is not `undefined`, and then holds that filter. */
  lemma {:induction false} AddFiltersKeys(q: Query, f: GuestFilters, order: seq<Key>, k: Key)
    ensures k in AddFilters(q, f, order) <==> k in q || (k in order && FilterOn(f, k) != Undefined)
    ensures k in AddFilters(q, f, order) ==>
              AddFilters(q, f, order)[k] == if k in order && FilterOn(f, k) != Undefined then FilterOn(f, k) else q[k]
    decreases |order|
  {
    if |order| > 0 {
      var j := order[0];
      var q' := if FilterOn(f, j) != Undefined then q[j := FilterOn(f, j)] else q;
      AddFiltersKeys(q', f, order[1..], k);
      assert k in order <==> k == j || k in order[1..];
    }
  }

  /** `buildMongoQuery`: one equality per filter that is not `undefined`; a
      `null` filter is kept. */
  function BuildQuery(f: GuestFilters): (q: Query)
    ensures forall k :: k in q <==> k in FilterKeys && FilterOn(f, k) != Undefined
    ensures forall k :: k in q ==> q[k] == FilterOn(f, k)
  {
    var q := AddFilters(map[], f, FilterOrder);
    assert forall k :: k in q <==> k in FilterKeys && FilterOn(f, k) != Undefined by {
      forall k ensures k in q <==> k in FilterKeys && FilterOn(f, k) != Undefined {
        AddFiltersKeys(map[], f, FilterOrder, k);
      }
    }
    assert forall k :: k in q ==> q[k] == FilterOn(f, k) by {
      forall k | k in q ensures q[k] == FilterOn(f, k) {
        AddFiltersKeys(map[], f, FilterOrder, k);
      }
    }
    q
  }

  /** A document satisfies the query of some filters exactly when every given
      filter holds of it: equal values, and for a `null` filter a `null` or
      missing property. Without filters every document is selected. */
  lemma BuildQuerySelects(f: GuestFilters, d: Doc)
    ensures Matches(d, BuildQuery(f)) <==>
              forall k :: k in FilterKeys && FilterOn(f, k) != Undefined ==> FieldMatches(Field(d, k), FilterOn(f, k))
    ensures BuildQuery(NoFilters) == map[] && Matches(d, BuildQuery(NoFilters))
  {
    var q := BuildQuery(f);
    if forall k :: k in FilterKeys && FilterOn(f, k) != Undefined ==> FieldMatches(Field(d, k), FilterOn(f, k)) {
      forall k | k in q ensures FieldMatches(Field(d, k), q[k]) {
        assert k in FilterKeys && FilterOn(f, k) != Undefined;
      }
    }
    assert forall k :: k !in BuildQuery(NoFilters) by {
      forall k ensures k !in BuildQuery(NoFilters) {
        assert FilterOn(NoFilters, k) == Undefined;
      }
    }
  }

  // ---------------------------------------------------------------------
  // Statistics

  /** How many documents hold exactly `v` in property `k`. */
  function CountEqual(docs: seq<Entry>, k: Key, v: Value): (n: nat)
    ensures n <= |docs|
  {
    if |docs| == 0 then 0
    else (if Field(docs[0].doc, k) == v then 1 else 0) + CountEqual(docs[1..], k, v)
  }

  /** `g.guestCount || 0` for a numeric guest count. */
  function CountTerm(v: Value): real
  {
    if Truthy(v) && v.Num? then v.n.r else 0.0
  }

  /** The guest counts of the attending documents, added up. */
  function GuestCountSum(docs: seq<Entry>): real
  {
    if |docs| == 0 then 0.0
    else
      (if Field(docs[0].doc, IsAttending) == Bool(true) then CountTerm(Field(docs[0].doc, GuestCount)) else 0.0)
      + GuestCountSum(docs[1..])
  }

  /** The group a document falls in when counting by dinner choice: the
      choice itself, or "unknown" when it is null or missing. */
  function DinnerGroup(d: Doc): string
  {
    var v := Field(d, DinnerChoice);
    if v.Str? then v.s else "unknown"
  }

  /** How many documents fall in a dinner-choice group. */
  function GroupSize(docs: seq<Entry>, group: string): (n: nat)
    ensures n <= |docs|
  {
    if |docs| == 0 then 0
    else (if DinnerGroup(docs[0].doc) == group then 1 else 0) + GroupSize(docs[1..], group)
  }

  /** A tally's count for a group, 0 when the group has no entry. */
  function Tallied(acc: map<string, nat>, group: string): nat
  {
    if group in acc then acc[group] else 0
  }

  /** The fold that builds `byDinnerChoice`, one document at a time. */
  function Tally(acc: map<string, nat>, docs: seq<Entry>): map<string, nat>
    decreases |docs|
  {
    if |docs| == 0 then acc
    else
      var group := DinnerGroup(docs[0].doc);
      Tally(acc[group := Tallied(acc, group) + 1], docs[1..])
  }

  /** The fold adds each group's size to what the accumulator held, and
      creates exactly the groups that occur. */
  lemma {:induction false} TallyCounts(acc: map<string, nat>, docs: seq<Entry>, group: string)
    ensures Tallied(Tally(acc, docs), group) == Tallied(acc, group) + GroupSize(docs, group)
    ensures group in Tally(acc, docs) <==> group in acc || GroupSize(docs, group) > 0
    decreases |docs|
  {
    if |docs| > 0 {
      var g := DinnerGroup(docs[0].doc);
      TallyCounts(acc[g := Tallied(acc, g) + 1], docs[1..], group);
    }
  }

  /** `byDinnerChoice`: a count for every group that occurs, and only for
      those. */
  function ByDinnerChoice(docs: seq<Entry>): (r: map<string, nat>)
    ensures forall group :: group in r <==> GroupSize(docs, group) > 0
    ensures forall group :: group in r ==> r[group] == GroupSize(docs, group)
  {
    var r := Tally(map[], docs);
    assert forall group :: group in r <==> GroupSize(docs, group) > 0 by {
      forall group ensures group in r <==> GroupSize(docs, group) > 0 {
        TallyCounts(map[], docs, group);
      }
    }
    assert forall group :: group in r ==> r[group] == GroupSize(docs, group) by {
      forall group | group in r ensures r[group] == GroupSize(docs, group) {
        TallyCounts(map[], docs, group);
      }
    }
    r
  }

  datatype Stats = Stats(
    total: nat,
    attending: nat,
    dinner: nat,
    brunch: nat,
    needsAcc: nat,
    guestCountSum: real,
    byDinnerChoice: map<string, nat>)

  /** The statistics `get_guest_stats` computes over the documents found. */
  function GuestStats(docs: seq<Entry>): (r: Stats)
    ensures r.total == |docs|
    ensures r.attending <= r.total && r.dinner <= r.total && r.brunch <= r.total && r.needsAcc <= r.total
  {
    Stats(
      |docs|,
      CountEqual(docs, IsAttending, Bool(true)),
      CountEqual(docs, DinnerParticipation, Bool(true)),
      CountEqual(docs, BrunchParticipation, Bool(true)),
      CountEqual(docs, NeedsAccommodation, Bool(true)),
      GuestCountSum(docs),
      ByDinnerChoice(docs))
  }

  /** Counting the documents that hold a non-null value agrees with the
      query asking for that value. */
  lemma {:induction false} CountEqualIsMatching(docs: seq<Entry>, k: Key, v: Value)
    requires v != Null
    ensures CountEqual(docs, k, v) == |Matching(docs, map[k := v])|
    decreases |docs|
  {
    if |docs| > 0 {
      CountEqualIsMatching(docs[1..], k, v);
    }
  }

  /** The four counters of the statistics count only the literal value
      `true`: each is the number of documents the query `{property: true}`
      finds among those counted. */
  lemma StatsCountTrue(docs: seq<Entry>)
    ensures var r := GuestStats(docs);
            && r.attending == |Matching(docs, map[IsAttending := Bool(true)])|
            && r.dinner == |Matching(docs, map[DinnerParticipation := Bool(true)])|
            && r.brunch == |Matching(docs, map[BrunchParticipation := Bool(true)])|
            && r.needsAcc == |Matching(docs, map[NeedsAccommodation := Bool(true)])|
  {
    CountEqualIsMatching(docs, IsAttending, Bool(true));
    CountEqualIsMatching(docs, DinnerParticipation, Bool(true));
    CountEqualIsMatching(docs, BrunchParticipation, Bool(true));
    CountEqualIsMatching(docs, NeedsAccommodation, Bool(true));
  }

  /** For stored documents the guest-count sum lies between 0 and ten per
      attending document: absent counts add 0, present ones at most 10. */
  lemma {:induction false} GuestCountSumBounds(docs: seq<Entry>)
    requires forall e :: e in docs ==> WellStored(e.doc)
    ensures 0.0 <= GuestCountSum(docs) <= 10.0 * CountEqual(docs, IsAttending, Bool(true)) as real
    decreases |docs|
  {
    if |docs| > 0 {
      assert docs[0] in docs;
      ValidGuestShape(docs[0].doc);
      assert forall e :: e in docs[1..] ==> e in docs;
      GuestCountSumBounds(docs[1..]);
    }
  }

  /** Only attending documents contribute to the guest-count sum: two
      sequences that agree on who attends, and on the guest count of those
      who do, have the same sum whatever the others' counts are. */
  lemma {:induction false} GuestCountSumIgnoresAbsent(docs: seq<Entry>, other: seq<Entry>)
    requires |docs| == |other|
    requires forall i :: 0 <= i < |docs| ==> Field(docs[i].doc, IsAttending) == Field(other[i].doc, IsAttending)
    requires forall i :: 0 <= i < |docs| && Field(docs[i].doc, IsAttending) == Bool(true) ==>
               Field(docs[i].doc, GuestCount) == Field(other[i].doc, GuestCount)
    ensures GuestCountSum(docs) == GuestCountSum(other)
    decreases |docs|
  {
    if |docs| > 0 {
      assert forall i :: 0 <= i < |docs| - 1 ==> docs[1..][i] == docs[i + 1] && other[1..][i] == other[i + 1];
      GuestCountSumIgnoresAbsent(docs[1..], other[1..]);
    }
  }

  /** Three attending guests with counts 2, 1 and 3 and one absent guest
      with count 5 give four documents, three attending and a sum of 6. */
  lemma StatsExample(a: ObjectId, b: ObjectId, c: ObjectId, d: ObjectId)
    ensures var docs := [
              Entry(a, map[IsAttending := Bool(true), GuestCount := Num(Finite(2.0))]),
              Entry(b, map[IsAttending := Bool(true), GuestCount := Num(Finite(1.0))]),
              Entry(c, map[IsAttending := Bool(true), GuestCount := Num(Finite(3.0))]),
              Entry(d, map[IsAttending := Bool(false), GuestCount := Num(Finite(5.0))])];
            var r := GuestStats(docs);
            r.total == 4 && r.attending == 3 && r.guestCountSum == 6.0
  {
    var docs := [
      Entry(a, map[IsAttending := Bool(true), GuestCount := Num(Finite(2.0))]),
      Entry(b, map[IsAttending := Bool(true), GuestCount := Num(Finite(1.0))]),
      Entry(c, map[IsAttending := Bool(true), GuestCount := Num(Finite(3.0))]),
      Entry(d, map[IsAttending := Bool(false), GuestCount := Num(Finite(5.0))])];
    assert docs[1..] == docs[1..4] && docs[2..] == docs[2..4] && docs[3..] == [docs[3]];
    assert docs[1..4][1..] == docs[2..4] && docs[2..4][1..] == [docs[3]] && [docs[3]][1..] == [];
    assert GuestCountSum([docs[3]]) == 0.0;
    assert GuestCountSum(docs[2..4]) == 3.0;
    assert GuestCountSum(docs[1..4]) == 4.0;
    assert CountEqual([docs[3]], IsAttending, Bool(true)) == 0;
    assert CountEqual(docs[2..4], IsAttending, Bool(true)) == 1;
    assert CountEqual(docs[1..4], IsAttending, Bool(true)) == 2;
  }

  /** Among stored documents the dinner-choice groups are exactly
      "raclette", "pierreChaudde" and "unknown", they partition the
      documents, and "unknown" holds the documents the query
      `{dinnerChoice: null}` finds. */
  lemma {:induction false} DinnerGroupsPartition(docs: seq<Entry>)
    requires forall e :: e in docs ==> WellStored(e.doc)
    ensures GroupSize(docs, "raclette") + GroupSize(docs, "pierreChaudde") + GroupSize(docs, "unknown") == |docs|
    ensures forall group :: group !in {"raclette", "pierreChaudde", "unknown"} ==> GroupSize(docs, group) == 0
    ensures GroupSize(docs, "unknown") == |Matching(docs, map[DinnerChoice := Null])|
    decreases |docs|
  {
    if |docs| > 0 {
      assert docs[0] in docs;
      ValidGuestShape(docs[0].doc);
      assert forall e :: e in docs[1..] ==> e in docs;
      DinnerGroupsPartition(docs[1..]);
    }
  }

  // ---------------------------------------------------------------------
  // Listing

  /** `Math.max` and `Math.min`: NaN wins. */
  function MaxNumber(a: Number, b: Number): Number
  {
    if a.NaN? || b.NaN? then NaN else Finite(if a.r >= b.r then a.r else b.r)
  }

  function MinNumber(a: Number, b: Number): Number
  {
    if a.NaN? || b.NaN? then NaN else Finite(if a.r <= b.r then a.r else b.r)
  }

  const DefaultListLimit: real := 20.0
  const MaxListLimit: real := 200.0

  /** `Math.min(Math.max(limit ?? 20, 1), 200)`. */
  function ClampLimit(v: Value): (n: Number)
    ensures Nullish(v) ==> n == Finite(DefaultListLimit)
    ensures n.NaN? <==> !Nullish(v) && ToNumber(v).NaN?
    ensures n.Finite? ==> 1.0 <= n.r <= MaxListLimit
    ensures !Nullish(v) && ToNumber(v).Finite? ==>
              n.r == (if ToNumber(v).r < 1.0 then 1.0 else if ToNumber(v).r > MaxListLimit then MaxListLimit else ToNumber(v).r)
  {
    var x := if Nullish(v) then Finite(DefaultListLimit) else ToNumber(v);
    MinNumber(MaxNumber(x, Finite(1.0)), Finite(MaxListLimit))
  }

  /** The properties `list_guests` returns (besides the id). */
  const ListFields: set<Key> :=
    {LastName, FirstName, Email, IsAttending, GuestCount, DinnerParticipation, BrunchParticipation,
     DinnerChoice, DessertChoice, NeedsAccommodation}

  /** The cursor of `list_guests`. */
  function ListRequest(f: GuestFilters, limit: nat): FindRequest
  {
    FindRequest(BuildQuery(f), true, limit, Some(ListFields))
  }

  /** What the server makes of a clamped limit that is NaN or a fraction.
      The driver passes any number on, so the server decides: it either
      refuses the request with an error, or truncates the number to an
      integer (a fraction to its integer part, NaN to 0, meaning no limit). */
  datatype LimitPolicy = RefuseNonIntegral(error: string) | TruncateNonIntegral

  /** The limit the cursor runs with, 0 meaning none, or the server's
      refusal. An integral clamped limit is used as it is. */
  function ListLimit(limit: Value, limits: LimitPolicy): (r: Result<nat, string>)
    ensures r.Err? <==> limits.RefuseNonIntegral? && (ClampLimit(limit).NaN? || !IsIntegral(ClampLimit(limit).r))
    ensures r.Err? ==> r.error == limits.error
    ensures ClampLimit(limit).Finite? && IsIntegral(ClampLimit(limit).r) ==>
              r.Ok? && r.value as real == ClampLimit(limit).r
    ensures r.Ok? && ClampLimit(limit).Finite? ==>
              1 <= r.value <= 200 && r.value as real <= ClampLimit(limit).r < r.value as real + 1.0
    ensures r.Ok? && ClampLimit(limit).NaN? ==> r.value == 0
  {
    var n := ClampLimit(limit);
    if n.NaN? then
      if limits.RefuseNonIntegral? then Err(limits.error) else Ok(0)
    else if !IsIntegral(n.r) && limits.RefuseNonIntegral? then Err(limits.error)
    else
      var k := n.r.Floor;
      assert 1 <= k <= 200;
      Ok(k as nat)
  }

  /** `list_guests`: the newest matching guests, at most the limit the
      server runs with, cut down to the listed properties. */
  function ListGuests(s: Store, f: GuestFilters, limit: Value, limits: LimitPolicy): (r: Result<seq<Entry>, string>)
    ensures r.Err? <==> ListLimit(limit, limits).Err?
    ensures r.Err? ==> r.error == limits.error
    ensures r.Ok? && ClampLimit(limit).Finite? ==> |r.value| <= 200
  {
    match ListLimit(limit, limits)
    case Err(e) => Err(e)
    case Ok(k) => Ok(Execute(s, ListRequest(f, k)))
  }

  /** Every listed guest is a matching guest cut down to the listed
      properties. With no limit, or one the matches do not exceed, all of
      them are listed; otherwise exactly the limit is listed. */
  lemma ListGuestsSound(s: Store, f: GuestFilters, limit: Value, limits: LimitPolicy)
    requires ListGuests(s, f, limit, limits).Ok?
    ensures var items := ListGuests(s, f, limit, limits).value;
            var k := ListLimit(limit, limits).value;
            var m := Matching(s, BuildQuery(f));
            && (forall e :: e in items ==> e.doc.Keys <= ListFields)
            && (forall e :: e in items ==>
                  exists x :: x in s && Matches(x.doc, BuildQuery(f)) && e == Project(x, ListFields))
            && (k == 0 || |m| <= k ==>
                  forall x :: x in s && Matches(x.doc, BuildQuery(f)) ==> Project(x, ListFields) in items)
            && (k == 0 || |m| <= k ==> |items| == |m|)
            && (0 < k < |m| ==> |items| == k)
  {
    var k := ListLimit(limit, limits).value;
    var req := ListRequest(f, k);
    var items := Execute(s, req);
    assert ListGuests(s, f, limit, limits).value == items;
    forall e | e in items
      ensures e.doc.Keys <= ListFields
      ensures exists x :: x in s && Matches(x.doc, BuildQuery(f)) && e == Project(x, ListFields)
    {
      ExecuteSound(s, req, e);
    }

    if k == 0 || |Matching(s, BuildQuery(f))| <= k {
      forall x | x in s && Matches(x.doc, BuildQuery(f)) ensures Project(x, ListFields) in items {
        ExecuteComplete(s, req, x);
      }
    }
  }

  /** The listed guests are the newest matches: each comes from a matching
      guest no older than any matching guest left off the list. */
  lemma ListGuestsNewest(s: Store, f: GuestFilters, limit: Value, limits: LimitPolicy, e: Entry)
    requires ListGuests(s, f, limit, limits).Ok?
    requires e in ListGuests(s, f, limit, limits).value
    ensures exists x :: && x in Matching(s, BuildQuery(f)) && e == Project(x, ListFields)
                        && forall y :: y in Matching(s, BuildQuery(f)) && Project(y, ListFields) !in ListGuests(s, f, limit, limits).value ==>
                             NotOlder(x, y)
  {
    var req := ListRequest(f, ListLimit(limit, limits).value);
    assert ListGuests(s, f, limit, limits).value == Execute(s, req);
    ExecuteKeepsNewest(s, req, e);
  }

  // ---------------------------------------------------------------------
  // Lookup by email

  /** `{email: args.email}` as the driver sends it: `undefined` becomes
      `null`. */
  function EmailQuery(email: Value): Query
  {
    map[Email := if email == Undefined then Null else email]
  }

  /** `findOne({email})`: the first matching guest in natural order. */
  function GuestByEmail(s: Store, email: Value): (r: Option<Entry>)
    ensures r.Some? ==> r.value in s && Matches(r.value.doc, EmailQuery(email))
    ensures r.None? ==> forall x :: x in s ==> !Matches(x.doc, EmailQuery(email))
  {
    var found := Execute(s, FindRequest(EmailQuery(email), false, 1, None));
    ExecuteUnprojected(s, FindRequest(EmailQuery(email), false, 1, None));
    if |found| == 0 then
      assert |Matching(s, EmailQuery(email))| <= 1;
      None
    else
      assert found[0] in found;
      Some(found[0])
  }

  /** A query none of whose entries match finds nothing. */
  lemma {:induction false} NoneMatching(t: seq<Entry>, q: Query)
    requires forall j :: 0 <= j < |t| ==> !Matches(t[j].doc, q)
    ensures Matching(t, q) == []
    decreases |t|
  {
    if |t| > 0 {
      assert forall j :: 0 <= j < |t| - 1 ==> t[1..][j] == t[j + 1];
      NoneMatching(t[1..], q);
    }
  }

  /** With unique emails, a query on one email finds at most one guest. */
  lemma {:induction false} AtMostOneWithEmail(s: Store, email: Value)
    requires UniqueEmails(s)
    requires email != Null
    ensures |Matching(s, map[Email := email])| <= 1
    decreases |s|
  {
    if |s| > 0 {
      assert UniqueEmails(s[1..]) by {
        assert forall i :: 0 <= i < |s| - 1 ==> s[1..][i] == s[i + 1];
      }
      AtMostOneWithEmail(s[1..], email);
      if Matches(s[0].doc, map[Email := email]) {
        forall j | 0 <= j < |s| - 1 ensures !Matches(s[1..][j].doc, map[Email := email]) {
          assert s[1..][j] == s[j + 1];
        }
        NoneMatching(s[1..], map[Email := email]);
      }
    }
  }

  /** `get_guest_by_email` on the collection finds the guest holding the
      email exactly when there is one; an omitted email finds nobody. */
  lemma GuestByEmailFinds(s: Store, email: string, x: Entry)
    requires Inv(s)
    ensures x in s && Field(x.doc, Email) == Str(email) <==> GuestByEmail(s, Str(email)) == Some(x)
    ensures GuestByEmail(s, Undefined).None?
  {
    var req := FindRequest(EmailQuery(Str(email)), false, 1, None);
    AtMostOneWithEmail(s, Str(email));
    if x in s && Field(x.doc, Email) == Str(email) {
      ExecuteUnprojected(s, req);
      assert x in Cursor(s, req);
    }
    forall y | y in s ensures !Matches(y.doc, EmailQuery(Undefined)) {
      ValidGuestShape(y.doc);
    }
  }

  // ---------------------------------------------------------------------
  // Dispatch

  datatype Tool = GetGuestStats | ListGuestsTool | GetGuestByEmail

  /** The tool a call names, if the name is one of the three. */
  function ToolByName(name: string): (t: Option<Tool>)
    ensures t == Some(GetGuestStats) <==> name == "get_guest_stats"
    ensures t == Some(ListGuestsTool) <==> name == "list_guests"
    ensures t == Some(GetGuestByEmail) <==> name == "get_guest_by_email"
  {
    if name == "get_guest_stats" then Some(GetGuestStats)
    else if name == "list_guests" then Some(ListGuestsTool)
    else if name == "get_guest_by_email" then Some(GetGuestByEmail)
    else None
  }

  /** The parsed arguments of a call: `null`, another non-object value
      (whose properties all read as `undefined`), or an object with the
      three properties a tool reads. Its `filters` is `None` when the
      property is nullish or not an object, which a tool treats as no
      filters. */
  datatype ToolArgs =
    | NullArgs
    | OtherArgs
    | ObjectArgs(filters: Option<GuestFilters>, limit: Value, email: Value)

  /** The arguments of a call whose argument string is empty: `{}`. */
  const EmptyArgs := ObjectArgs(None, Undefined, Undefined)

  /** `args?.filters ?? {}`. */
  function FiltersOf(args: ToolArgs): GuestFilters
  {
    if args.ObjectArgs? && args.filters.Some? then args.filters.value else NoFilters
  }

  /** `args?.limit`. */
  function LimitOf(args: ToolArgs): Value
  {
    if args.ObjectArgs? then args.limit else Undefined
  }

  /** What a tool call returns, before serialisation. */
  datatype ToolPayload =
    | StatsPayload(stats: Stats)
    | ItemsPayload(items: seq<Entry>)
    | GuestPayload(guest: Option<Entry>)
    | ErrorPayload(message: string)

  const NullArgsEmail := "Cannot read properties of null (reading 'email')"

  /** Runs a tool: the result, or the message of the error it throws. */
  function RunTool(t: Tool, args: ToolArgs, s: Store, limits: LimitPolicy): (r: Result<ToolPayload, string>)
    ensures t == GetGuestStats ==>
              r == Ok(StatsPayload(GuestStats(Matching(s, BuildQuery(FiltersOf(args))))))
    ensures t == GetGuestByEmail ==>
              (r.Err? <==> args.NullArgs?) && (r.Err? ==> r.error == NullArgsEmail)
    ensures t == GetGuestByEmail && args.ObjectArgs? ==> r == Ok(GuestPayload(GuestByEmail(s, args.email)))
    ensures t == ListGuestsTool ==>
              var listed := ListGuests(s, if args.ObjectArgs? && args.filters.Some? then args.filters.value else NoFilters,
                                       if args.ObjectArgs? then args.limit else Undefined, limits);
              && (r.Ok? <==> listed.Ok?)
              && (listed.Ok? ==> r.value == ItemsPayload(listed.value))
              && (listed.Err? ==> r.error == listed.error)
  {
    match t
    case GetGuestStats =>
      var req := FindRequest(BuildQuery(FiltersOf(args)), false, 0, None);
      ExecuteUnprojected(s, req);
      Ok(StatsPayload(GuestStats(Execute(s, req))))
    case ListGuestsTool =>
      (match ListGuests(s, FiltersOf(args), LimitOf(args), limits)
       case Ok(items) => Ok(ItemsPayload(items))
       case Err(e) => Err(e))
    case GetGuestByEmail =>
      match args
      case NullArgs => Err(NullArgsEmail)
      case OtherArgs => Ok(GuestPayload(GuestByEmail(s, Undefined)))
      case ObjectArgs(_, _, email) => Ok(GuestPayload(GuestByEmail(s, email)))
  }

  /** A call the assistant asked for. */
  datatype ToolCall = ToolCall(id: string, name: string, arguments: string)

  /** The fallback message of a failed call. */
  const ToolError := "Tool error"

  /** The message of calling a name that is not a tool. */
  function NotAFunction(): string
  {
    "toolImpl[name] is not a function"
  }

  /** The error payload of a call that threw `message`. */
  function Failed(message: string): (p: ToolPayload)
    ensures p.ErrorPayload? && p.message != ""
    ensures message != "" ==> p.message == message
  {
    ErrorPayload(if message != "" then message else ToolError)
  }

  /** One iteration of the tool loop: parse the arguments (an empty string
      is `{}`), find the tool, run it; any error becomes an error payload
      carrying its message. */
  function ExecuteCall(call: ToolCall, s: Store, parse: string -> Result<ToolArgs, string>, limits: LimitPolicy): (p: ToolPayload)
    ensures call.arguments != "" && parse(call.arguments).Err? ==> p == Failed(parse(call.arguments).error)
    ensures ToolByName(call.name).None? && (call.arguments == "" || parse(call.arguments).Ok?) ==>
              p == Failed(NotAFunction())
    ensures (call.arguments == "" || parse(call.arguments).Ok?) && ToolByName(call.name).Some? ==>
              var args := if call.arguments == "" then EmptyArgs else parse(call.arguments).value;
              var ran := RunTool(ToolByName(call.name).value, args, s, limits);
              && (ran.Ok? ==> p == ran.value)
              && (ran.Err? ==> p == Failed(ran.error))
    ensures p.ErrorPayload? ==> p.message != ""
  {
    var parsed := if call.arguments == "" then Ok(EmptyArgs) else parse(call.arguments);
    match parsed
    case Err(e) => Failed(e)
    case Ok(args) =>
      match ToolByName(call.name)
      case None => Failed(NotAFunction())
      case Some(t) =>
        match RunTool(t, args, s, limits)
        case Ok(p) => p
        case Err(e) => Failed(e)
  }

  /** A `get_guest_by_email` call whose arguments name an email answers with
      the one stored guest holding that email, or with nothing when no guest
      has it. */
  lemma EmailCallFinds(call: ToolCall, s: Store, parse: string -> Result<ToolArgs, string>, limits: LimitPolicy,
                       email: string)
    requires Inv(s)
    requires call.name == "get_guest_by_email" && call.arguments != ""
    requires parse(call.arguments).Ok? && parse(call.arguments).value.ObjectArgs?
    requires parse(call.arguments).value.email == Str(email)
    ensures var p := ExecuteCall(call, s, parse, limits);
            && p.GuestPayload?
            && (p.guest.Some? ==> p.guest.value in s && Field(p.guest.value.doc, Email) == Str(email))
            && (p.guest.None? ==> forall x :: x in s ==> Field(x.doc, Email) != Str(email))
  {
    var g := GuestByEmail(s, Str(email));
    assert ExecuteCall(call, s, parse, limits) == GuestPayload(g);
    if g.Some? {
      GuestByEmailFinds(s, email, g.value);
    } else {
      forall x | x in s
        ensures Field(x.doc, Email) != Str(email)
      {
        GuestByEmailFinds(s, email, x);
      }
    }
  }
}
