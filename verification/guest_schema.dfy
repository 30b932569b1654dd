/**
 * The guest record and the store's validation schema for it: the required
 * names and email, the tri-state answers, the two menu enumerations, the
 * guest-count range and the email pattern, written over characters.
 */
module GuestSchema {
  import opened Base
  import opened Js

  /** A property name. The names the schema and the handlers mention have
      their own constructor; `Other` carries every remaining name. */
  datatype Key =
    | LastName | FirstName | Email | IsAttending | GuestCount
    | DinnerParticipation | DinnerChoice | DessertChoice
    | BrunchParticipation | NeedsAccommodation | AccommodationDates | Comments
    | CreatedAt | UpdatedAt | ObjectIdKey
    | Other(name: string)

  /** The property name as it is spelled in a document. */
  function KeyName(k: Key): string
  {
    match k
    case LastName => "lastName"
    case FirstName => "firstName"
    case Email => "email"
    case IsAttending => "isAttending"
    case GuestCount => "guestCount"
    case DinnerParticipation => "dinnerParticipation"
    case DinnerChoice => "dinnerChoice"
    case DessertChoice => "dessertChoice"
    case BrunchParticipation => "brunchParticipation"
    case NeedsAccommodation => "needsAccommodation"
    case AccommodationDates => "accommodationDates"
    case Comments => "comments"
    case CreatedAt => "createdAt"
    case UpdatedAt => "updatedAt"
    case ObjectIdKey => "_id"
    case Other(name) => name
  }

  /** A document: its properties by key. The store's identifier is kept
      beside the document, not inside it. */
  type Doc = map<Key, Value>

  /** `doc[k]`, with an absent property read as `undefined`. */
  function Field(d: Doc, k: Key): Value
  {
    if k in d then d[k] else Undefined
  }

  // ---------------------------------------------------------------------
  // The email pattern  ^[a-zA-Z0-9._%+-]+@[a-zA-Z0-9.-]+\.[a-zA-Z]{2,}$

  predicate IsAsciiLetter(c: char)
  {
    'a' <= c <= 'z' || 'A' <= c <= 'Z'
  }

  /** The character class of the part before the `@`. */
  predicate IsLocalChar(c: char)
  {
    IsAsciiLetter(c) || IsDigit(c) || c == '.' || c == '_' || c == '%' || c == '+' || c == '-'
  }

  /** The character class of the part after the `@`. */
  predicate IsDomainChar(c: char)
  {
    IsAsciiLetter(c) || IsDigit(c) || c == '.' || c == '-'
  }

  predicate AllLocal(s: string)
  {
    forall i :: 0 <= i < |s| ==> IsLocalChar(s[i])
  }

  predicate AllDomain(s: string)
  {
    forall i :: 0 <= i < |s| ==> IsDomainChar(s[i])
  }

  predicate AllLetters(s: string)
  {
    forall i :: 0 <= i < |s| ==> IsAsciiLetter(s[i])
  }

  /** `s` splits as the pattern demands, with the `@` at `at` and the final
      `\.` at `dot`. */
  predicate EmailSplit(s: string, at: int, dot: int)
  {
    && 0 < at && at + 1 < dot && dot + 3 <= |s|
    && s[at] == '@' && s[dot] == '.'
    && AllLocal(s[..at]) && AllDomain(s[at + 1..dot]) && AllLetters(s[dot + 1..])
  }

  /** The email pattern read as a match of the whole string. */
  ghost predicate MatchesEmailPattern(s: string)
  {
    exists at, dot :: EmailSplit(s, at, dot)
  }

  /** The index of the first `c` in `s`, or `|s|` when there is none. */
  function IndexOf(s: string, c: char): (i: nat)
    ensures i <= |s|
    ensures i < |s| ==> s[i] == c
    ensures forall k :: 0 <= k < i ==> s[k] != c
  {
    if |s| == 0 || s[0] == c then 0 else 1 + IndexOf(s[1..], c)
  }

  /** The index of the last `c` in `s`, or -1 when there is none. */
  function LastIndexOf(s: string, c: char): (i: int)
    ensures -1 <= i < |s|
    ensures i >= 0 ==> s[i] == c
    ensures forall k :: i < k < |s| ==> s[k] != c
  {
    if |s| == 0 then -1
    else if s[|s| - 1] == c then |s| - 1
    else LastIndexOf(s[..|s| - 1], c)
  }

  /** The email check, decided by locating the first `@` and the last `.`. */
  predicate ValidEmail(s: string)
  {
    var at := IndexOf(s, '@');
    var dot := LastIndexOf(s, '.');
    && 0 < at < |s|
    && AllLocal(s[..at])
    && AllDomain(s[at + 1..])
    && at + 1 < dot && dot + 3 <= |s|
    && AllLetters(s[dot + 1..])
  }

  /** A slice of a run of domain characters is one too. */
  lemma AllDomainSlice(s: string, i: int, j: int)
    requires 0 <= i <= j <= |s| && AllDomain(s)
    ensures AllDomain(s[i..j])
  {
    assert forall k :: 0 <= k < j - i ==> s[i..j][k] == s[i + k];
  }

  /** Every string the check accepts matches the pattern. */
  lemma ValidEmailMatches(s: string)
    requires ValidEmail(s)
    ensures MatchesEmailPattern(s)
  {
    var at, dot := IndexOf(s, '@'), LastIndexOf(s, '.');
    var domain := s[at + 1..];
    AllDomainSlice(domain, 0, dot - at - 1);
    assert domain[0..dot - at - 1] == s[at + 1..dot];
    assert EmailSplit(s, at, dot);
  }

  /** Every string the pattern matches is accepted by the check: the pattern's
      `@` is the first one, its `.` is the last one. */
  lemma PatternMatchesValid(s: string, at: int, dot: int)
    requires EmailSplit(s, at, dot)
    ensures IndexOf(s, '@') == at
    ensures LastIndexOf(s, '.') == dot
    ensures ValidEmail(s)
  {
    forall k | at + 1 <= k < |s|
      ensures IsDomainChar(s[k])
    {
      if k < dot {
        assert s[at + 1..dot][k - at - 1] == s[k];
      } else if k > dot {
        assert s[dot + 1..][k - dot - 1] == s[k];
      }
    }
    assert AllDomain(s[at + 1..]) by {
      var rest := s[at + 1..];
      forall k | 0 <= k < |rest|
        ensures IsDomainChar(rest[k])
      {
        assert rest[k] == s[at + 1 + k];
      }
    }
  }

  /** The check accepts exactly the strings the pattern matches. */
  lemma ValidEmailIsPattern(s: string)
    ensures ValidEmail(s) <==> MatchesEmailPattern(s)
  {
    if ValidEmail(s) {
      ValidEmailMatches(s);
    }
    if MatchesEmailPattern(s) {
      var at, dot :| EmailSplit(s, at, dot);
      PatternMatchesValid(s, at, dot);
    }
  }

  /** A valid email holds exactly one `@`, every other character is drawn
      from the pattern's classes, and so it has no line break. */
  lemma ValidEmailShape(s: string)
    requires ValidEmail(s)
    ensures exists at :: 0 < at < |s| && s[at] == '@'
    ensures forall i, j :: 0 <= i < |s| && 0 <= j < |s| && s[i] == '@' && s[j] == '@' ==> i == j
    ensures forall i :: 0 <= i < |s| ==> s[i] == '@' || IsLocalChar(s[i]) || IsDomainChar(s[i])
    ensures '\n' !in s
  {
    var at := IndexOf(s, '@');
    forall i | 0 <= i < |s|
      ensures s[i] == '@' ==> i == at
      ensures s[i] == '@' || IsLocalChar(s[i]) || IsDomainChar(s[i])
    {
      if i < at {
        assert s[..at][i] == s[i];
      } else if i > at {
        assert s[at + 1..][i - at - 1] == s[i];
      }
    }
  }

  /** The pattern as the store applies it. The store's regular-expression
      engine is PCRE, where `$` also matches just before a final line break,
      so a trailing "\n" after an otherwise valid address is let through. */
  ghost predicate StorePatternAsWritten(s: string)
  {
    || MatchesEmailPattern(s)
    || (|s| > 0 && s[|s| - 1] == '\n' && MatchesEmailPattern(s[..|s| - 1]))
  }

  /** The email check the store performs, decided like `ValidEmail`: a valid
      address, or a valid address followed by one final line break. */
  predicate StoreEmail(s: string)
  {
    || ValidEmail(s)
    || (|s| > 0 && s[|s| - 1] == '\n' && ValidEmail(s[..|s| - 1]))
  }

  /** The store's check accepts exactly what the pattern as the store applies
      it matches. */
  lemma StoreEmailIsPattern(s: string)
    ensures StoreEmail(s) <==> StorePatternAsWritten(s)
  {
    ValidEmailIsPattern(s);
    if |s| > 0 {
      ValidEmailIsPattern(s[..|s| - 1]);
    }
  }

  /** On a string without a line break, the store's check and the intended
      one agree. */
  lemma StoreEmailAgrees(s: string)
    requires '\n' !in s
    ensures StoreEmail(s) <==> ValidEmail(s)
  {
    if |s| > 0 {
      assert s[|s| - 1] in s;
    }
  }

  /** "a@b.co\n" passes the pattern as the store applies it, yet it is not a
      valid address. */
  lemma TrailingNewlineAccepted()
    ensures StorePatternAsWritten("a@b.co\n")
    ensures StoreEmail("a@b.co\n")
    ensures !ValidEmail("a@b.co\n")
  {
    var s := "a@b.co\n";
    var t := s[..|s| - 1];
    assert t == "a@b.co";
    assert t[..1] == "a" && t[2..3] == "b" && t[4..] == "co";
    assert EmailSplit(t, 1, 3);
    assert s[IndexOf(s, '@') + 1..][4] == '\n';
  }

  // ---------------------------------------------------------------------
  // The schema

  /** `bool` or `null`, when present. */
  predicate TriValue(v: Value)
  {
    v.Undefined? || v.Null? || v.Bool?
  }

  /** A 32-bit integer between 1 and 10. Integral numbers reach the store
      as 32-bit integers; others as doubles, which the `int` type refuses. */
  predicate ValidCount(v: Value)
  {
    v.Num? && v.n.Finite? && IsIntegral(v.n.r) && 1.0 <= v.n.r <= 10.0
  }

  predicate OptionalString(v: Value)
  {
    v.Undefined? || v.Str?
  }

  predicate OptionalDate(v: Value)
  {
    v.Undefined? || v.Date?
  }

  predicate ValidDinnerChoice(v: Value)
  {
    v.Undefined? || v.Null? || v == Str("raclette") || v == Str("pierreChaudde")
  }

  predicate ValidDessertChoice(v: Value)
  {
    v.Undefined? || v.Null? || v == Str("sorbet") || v == Str("tarteMyrille")
  }

  /** What the schema demands of one property's value. */
  datatype Constraint =
    | AnyString
    | EmailString
    | BoolOrNull
    | IntBetween(lo: int, hi: int)
    | OneOf(values: seq<Value>)
    | AnyDate

  /** A value present in the document meets the constraint. */
  predicate Satisfies(v: Value, c: Constraint)
  {
    match c
    case AnyString => v.Str?
    case EmailString => v.Str? && StoreEmail(v.s)
    case BoolOrNull => v.Null? || v.Bool?
    case IntBetween(lo, hi) =>
      v.Num? && v.n.Finite? && IsIntegral(v.n.r) && lo as real <= v.n.r <= hi as real
    case OneOf(values) => v in values
    case AnyDate => v.Date?
  }

  datatype PropertyRule = PropertyRule(key: Key, constraint: Constraint)

  /** The `properties` of the collection's schema. */
  const GuestProperties: seq<PropertyRule> := [
    PropertyRule(LastName, AnyString),
    PropertyRule(FirstName, AnyString),
    PropertyRule(Email, EmailString),
    PropertyRule(IsAttending, BoolOrNull),
    PropertyRule(GuestCount, IntBetween(1, 10)),
    PropertyRule(DinnerParticipation, BoolOrNull),
    PropertyRule(DinnerChoice, OneOf([Str("raclette"), Str("pierreChaudde"), Null])),
    PropertyRule(DessertChoice, OneOf([Str("sorbet"), Str("tarteMyrille"), Null])),
    PropertyRule(BrunchParticipation, BoolOrNull),
    PropertyRule(NeedsAccommodation, BoolOrNull),
    PropertyRule(AccommodationDates, AnyString),
    PropertyRule(Comments, AnyString),
    PropertyRule(CreatedAt, AnyDate),
    PropertyRule(UpdatedAt, AnyDate)]

  /** The `required` list of the collection's schema. */
  const RequiredProperties: seq<Key> := [LastName, FirstName, Email]

  /** The schema the guest collection is created with: the required
      properties are present, and every property the schema mentions meets
      its constraint when present. Properties it does not mention are
      allowed. */
  predicate ValidGuest(d: Doc)
  {
    && (forall i :: 0 <= i < |RequiredProperties| ==> Field(d, RequiredProperties[i]) != Undefined)
    && (forall i :: 0 <= i < |GuestProperties| ==>
          var v := Field(d, GuestProperties[i].key);
          v != Undefined ==> Satisfies(v, GuestProperties[i].constraint))
  }

  /** The schema read property by property. */
  predicate GuestShape(d: Doc)
  {
    && Field(d, LastName).Str?
    && Field(d, FirstName).Str?
    && Field(d, Email).Str? && StoreEmail(Field(d, Email).s)
    && TriValue(Field(d, IsAttending))
    && (Field(d, GuestCount).Undefined? || ValidCount(Field(d, GuestCount)))
    && TriValue(Field(d, DinnerParticipation))
    && ValidDinnerChoice(Field(d, DinnerChoice))
    && ValidDessertChoice(Field(d, DessertChoice))
    && TriValue(Field(d, BrunchParticipation))
    && TriValue(Field(d, NeedsAccommodation))
    && OptionalString(Field(d, AccommodationDates))
    && OptionalString(Field(d, Comments))
    && OptionalDate(Field(d, CreatedAt))
    && OptionalDate(Field(d, UpdatedAt))
  }

  /** A document meets the schema exactly when it has string names, a valid
      email, tri-state answers, menu choices from their enumerations (or
      null), a guest count that is an integer in [1, 10] when present, and
      string or date values in the remaining properties when present. */
  lemma ValidGuestShape(d: Doc)
    ensures ValidGuest(d) <==> GuestShape(d)
  {
    var p := GuestProperties;
    assert p[0] == PropertyRule(LastName, AnyString);
    assert p[1] == PropertyRule(FirstName, AnyString);
    assert p[2] == PropertyRule(Email, EmailString);
    assert p[3] == PropertyRule(IsAttending, BoolOrNull);
    assert p[4] == PropertyRule(GuestCount, IntBetween(1, 10));
    assert p[5] == PropertyRule(DinnerParticipation, BoolOrNull);
    assert p[6] == PropertyRule(DinnerChoice, OneOf([Str("raclette"), Str("pierreChaudde"), Null]));
    assert p[7] == PropertyRule(DessertChoice, OneOf([Str("sorbet"), Str("tarteMyrille"), Null]));
    assert p[8] == PropertyRule(BrunchParticipation, BoolOrNull);
    assert p[9] == PropertyRule(NeedsAccommodation, BoolOrNull);
    assert p[10] == PropertyRule(AccommodationDates, AnyString);
    assert p[11] == PropertyRule(Comments, AnyString);
    assert p[12] == PropertyRule(CreatedAt, AnyDate);
    assert p[13] == PropertyRule(UpdatedAt, AnyDate);
    assert RequiredProperties[0] == LastName;
    assert RequiredProperties[1] == FirstName;
    assert RequiredProperties[2] == Email;
  }

  // ---------------------------------------------------------------------
  // The typed guest record

  /** An answer that is yes, no, or not given yet (`null`). */
  datatype TriState = Yes | No | Unanswered

  datatype Dinner = Raclette | PierreChaudde

  datatype Dessert = Sorbet | TarteMyrille

  /** The guest record with every property present. */
  datatype Guest = Guest(
    lastName: string,
    firstName: string,
    email: string,
    isAttending: TriState,
    guestCount: int,
    dinnerParticipation: TriState,
    dinnerChoice: Option<Dinner>,
    dessertChoice: Option<Dessert>,
    brunchParticipation: TriState,
    needsAccommodation: TriState,
    accommodationDates: string,
    comments: string,
    createdAt: int,
    updatedAt: int)

  function TriToValue(t: TriState): Value
  {
    match t
    case Yes => Bool(true)
    case No => Bool(false)
    case Unanswered => Null
  }

  function TriFromValue(v: Value): Option<TriState>
  {
    match v
    case Bool(b) => Some(if b then Yes else No)
    case Null => Some(Unanswered)
    case _ => None
  }

  function DinnerToValue(c: Option<Dinner>): Value
  {
    match c
    case None => Null
    case Some(Raclette) => Str("raclette")
    case Some(PierreChaudde) => Str("pierreChaudde")
  }

  function DinnerFromValue(v: Value): Option<Option<Dinner>>
  {
    if v == Null then Some(None)
    else if v == Str("raclette") then Some(Some(Raclette))
    else if v == Str("pierreChaudde") then Some(Some(PierreChaudde))
    else None
  }

  function DessertToValue(c: Option<Dessert>): Value
  {
    match c
    case None => Null
    case Some(Sorbet) => Str("sorbet")
    case Some(TarteMyrille) => Str("tarteMyrille")
  }

  function DessertFromValue(v: Value): Option<Option<Dessert>>
  {
    if v == Null then Some(None)
    else if v == Str("sorbet") then Some(Some(Sorbet))
    else if v == Str("tarteMyrille") then Some(Some(TarteMyrille))
    else None
  }

  /** The properties of the guest record. */
  const GuestKeys: set<Key> := {
    LastName, FirstName, Email, IsAttending, GuestCount,
    DinnerParticipation, DinnerChoice, DessertChoice, BrunchParticipation,
    NeedsAccommodation, AccommodationDates, Comments, CreatedAt, UpdatedAt}

  /** The stored value of property `k` of a guest record. */
  function Property(g: Guest, k: Key): Value
  {
    match k
    case LastName => Str(g.lastName)
    case FirstName => Str(g.firstName)
    case Email => Str(g.email)
    case IsAttending => TriToValue(g.isAttending)
    case GuestCount => Num(Finite(g.guestCount as real))
    case DinnerParticipation => TriToValue(g.dinnerParticipation)
    case DinnerChoice => DinnerToValue(g.dinnerChoice)
    case DessertChoice => DessertToValue(g.dessertChoice)
    case BrunchParticipation => TriToValue(g.brunchParticipation)
    case NeedsAccommodation => TriToValue(g.needsAccommodation)
    case AccommodationDates => Str(g.accommodationDates)
    case Comments => Str(g.comments)
    case CreatedAt => Date(g.createdAt)
    case UpdatedAt => Date(g.updatedAt)
    case _ => Undefined
  }

  /** The document a guest record is stored as. */
  function ToDoc(g: Guest): Doc
  {
    map k | k in GuestKeys :: Property(g, k)
  }

  /** Reads a document back as a guest record; `None` when a property is
      missing or of the wrong shape. */
  function FromDoc(d: Doc): Option<Guest>
  {
    var att := TriFromValue(Field(d, IsAttending));
    var din := TriFromValue(Field(d, DinnerParticipation));
    var bru := TriFromValue(Field(d, BrunchParticipation));
    var acc := TriFromValue(Field(d, NeedsAccommodation));
    var dc := DinnerFromValue(Field(d, DinnerChoice));
    var ds := DessertFromValue(Field(d, DessertChoice));
    var gc := Field(d, GuestCount);
    if && Field(d, LastName).Str? && Field(d, FirstName).Str? && Field(d, Email).Str?
       && att.Some? && din.Some? && bru.Some? && acc.Some? && dc.Some? && ds.Some?
       && gc.Num? && gc.n.Finite? && IsIntegral(gc.n.r)
       && Field(d, AccommodationDates).Str? && Field(d, Comments).Str?
       && Field(d, CreatedAt).Date? && Field(d, UpdatedAt).Date?
    then
      Some(Guest(
        Field(d, LastName).s, Field(d, FirstName).s, Field(d, Email).s,
        att.value, gc.n.r.Floor, din.value, dc.value, ds.value, bru.value, acc.value,
        Field(d, AccommodationDates).s, Field(d, Comments).s,
        Field(d, CreatedAt).ms, Field(d, UpdatedAt).ms))
    else None
  }

  lemma FieldOfToDoc(g: Guest, k: Key)
    requires k in GuestKeys
    ensures Field(ToDoc(g), k) == Property(g, k)
  {
  }

  /** Every property of the guest record reads back from its document. */
  lemma FieldsOfToDoc(g: Guest)
    ensures forall k :: k in GuestKeys ==> Field(ToDoc(g), k) == Property(g, k)
  {
    forall k | k in GuestKeys
      ensures Field(ToDoc(g), k) == Property(g, k)
    {
      FieldOfToDoc(g, k);
    }
  }

  /** Storing a guest record and reading it back gives the same record. */
  lemma FromDocToDoc(g: Guest)
    ensures FromDoc(ToDoc(g)) == Some(g)
  {
    FieldsOfToDoc(g);
    assert (g.guestCount as real).Floor == g.guestCount;
  }

  /** Reading a document as a guest record keeps every property of it. */
  lemma ToDocFromDoc(d: Doc, g: Guest)
    requires FromDoc(d) == Some(g)
    ensures forall k :: k in GuestKeys ==> Field(d, k) == Field(ToDoc(g), k)
  {
    FieldsOfToDoc(g);
    forall k | k in GuestKeys
      ensures Field(d, k) == Property(g, k)
    {
      match k
      case GuestCount =>
        var gc := Field(d, GuestCount);
        assert gc.n.r == gc.n.r.Floor as real;
      case IsAttending =>
        assert TriFromValue(Field(d, k)) == Some(g.isAttending);
      case DinnerParticipation =>
        assert TriFromValue(Field(d, k)) == Some(g.dinnerParticipation);
      case BrunchParticipation =>
        assert TriFromValue(Field(d, k)) == Some(g.brunchParticipation);
      case NeedsAccommodation =>
        assert TriFromValue(Field(d, k)) == Some(g.needsAccommodation);
      case DinnerChoice =>
        assert DinnerFromValue(Field(d, k)) == Some(g.dinnerChoice);
      case DessertChoice =>
        assert DessertFromValue(Field(d, k)) == Some(g.dessertChoice);
      case _ =>
    }
  }

  /** Every property of a record's document other than the email and the
      guest count has the type the schema asks for. */
  lemma RecordFieldsTyped(g: Guest)
    ensures var d := ToDoc(g);
            && Field(d, LastName).Str?
            && Field(d, FirstName).Str?
            && TriValue(Field(d, IsAttending))
            && TriValue(Field(d, DinnerParticipation))
            && ValidDinnerChoice(Field(d, DinnerChoice))
            && ValidDessertChoice(Field(d, DessertChoice))
            && TriValue(Field(d, BrunchParticipation))
            && TriValue(Field(d, NeedsAccommodation))
            && OptionalString(Field(d, AccommodationDates))
            && OptionalString(Field(d, Comments))
            && OptionalDate(Field(d, CreatedAt))
            && OptionalDate(Field(d, UpdatedAt))
  {
    FieldOfToDoc(g, LastName);
    FieldOfToDoc(g, FirstName);
    FieldOfToDoc(g, IsAttending);
    FieldOfToDoc(g, DinnerParticipation);
    FieldOfToDoc(g, DinnerChoice);
    FieldOfToDoc(g, DessertChoice);
    FieldOfToDoc(g, BrunchParticipation);
    FieldOfToDoc(g, NeedsAccommodation);
    FieldOfToDoc(g, AccommodationDates);
    FieldOfToDoc(g, Comments);
    FieldOfToDoc(g, CreatedAt);
    FieldOfToDoc(g, UpdatedAt);
  }

  /** Read property by property, a record's document has the schema's shape
      exactly when its email passes the store's check and its guest count
      lies in [1, 10]. */
  lemma RecordShape(g: Guest)
    ensures GuestShape(ToDoc(g)) <==> StoreEmail(g.email) && 1 <= g.guestCount <= 10
  {
    var d := ToDoc(g);
    RecordFieldsTyped(g);
    FieldOfToDoc(g, Email);
    FieldOfToDoc(g, GuestCount);
    assert IsIntegral(g.guestCount as real) by {
      assert (g.guestCount as real).Floor == g.guestCount;
    }
    assert ValidCount(Field(d, GuestCount)) <==> 1 <= g.guestCount <= 10;
  }

  /** A guest record is accepted by the schema exactly when its email passes
      the store's check and its guest count lies in [1, 10]. */
  lemma ToDocValid(g: Guest)
    ensures ValidGuest(ToDoc(g)) <==> StoreEmail(g.email) && 1 <= g.guestCount <= 10
  {
    RecordShape(g);
    ValidGuestShape(ToDoc(g));
  }
}
