/**
 * The records and the route enumeration of the plant identifier: the
 * recognised plant with its care guide, and the six screens the application
 * can be on. Also the decimal rendering of a clock reading, which is how a
 * stored record gets its `id`.
 */
module PlantTypes {

  datatype Option<T> = None | Some(value: T)

  /** The three care instructions, all required. */
  datatype CareGuide = CareGuide(light: string, water: string, temperature: string)

  /**
   * One plant description. `id`, `imageUrl` and `timestamp` are optional:
   * the recognition service never fills them, the application does.
   * `difficulty` is any number; the 1-3 star range is only a hint given to
   * the service, never checked. `tags` keeps order and duplicates.
   */
  datatype PlantInfo = PlantInfo(
    id: Option<string>,
    name: string,
    scientificName: string,
    description: string,
    trivia: string,
    careGuide: CareGuide,
    difficulty: real,
    tags: seq<string>,
    imageUrl: Option<string>,
    timestamp: Option<int>)

  /** The screens; their string values are pairwise distinct. */
  datatype AppRoute = HOME | IDENTIFY | DETAIL | ENCYCLOPEDIA | PROFILE | HISTORY

  function RouteValue(r: AppRoute): string
  {
    match r
    case HOME => "home"
    case IDENTIFY => "identify"
    case DETAIL => "detail"
    case ENCYCLOPEDIA => "encyclopedia"
    case PROFILE => "profile"
    case HISTORY => "history"
  }

  /** The route whose string value is `s`, if any. */
  function RouteOf(s: string): (r: Option<AppRoute>)
    ensures r.Some? ==> RouteValue(r.value) == s
  {
    if s == "home" then Some(HOME)
    else if s == "identify" then Some(IDENTIFY)
    else if s == "detail" then Some(DETAIL)
    else if s == "encyclopedia" then Some(ENCYCLOPEDIA)
    else if s == "profile" then Some(PROFILE)
    else if s == "history" then Some(HISTORY)
    else None
  }

  /** Every route is recovered from its value, so no two routes share one. */
  lemma RouteValuesDistinct(r1: AppRoute, r2: AppRoute)
    ensures RouteOf(RouteValue(r1)) == Some(r1)
    ensures RouteValue(r1) == RouteValue(r2) <==> r1 == r2
  {
    assert RouteOf(RouteValue(r2)) == Some(r2);
  }

  /** The field names every plant description carries. */
  const RequiredFields: set<string> :=
    {"name", "scientificName", "description", "trivia", "careGuide", "difficulty", "tags"}

  /** The fields a plant description may carry but need not. */
  const OptionalFields: set<string> := {"id", "imageUrl", "timestamp"}

  /** The `required` list of the response schema the recognition service is given. */
  const SchemaRequired: seq<string> :=
    ["name", "scientificName", "description", "trivia", "careGuide", "difficulty", "tags"]

  /** The names of the fields present in `p`. */
  function FieldNames(p: PlantInfo): (r: set<string>)
    ensures RequiredFields <= r && r - RequiredFields <= OptionalFields
    ensures "id" in r <==> p.id.Some?
    ensures "imageUrl" in r <==> p.imageUrl.Some?
    ensures "timestamp" in r <==> p.timestamp.Some?
  {
    RequiredFields
      + (if p.id.Some? then {"id"} else {})
      + (if p.imageUrl.Some? then {"imageUrl"} else {})
      + (if p.timestamp.Some? then {"timestamp"} else {})
  }

  /** A description as the recognition service returns it: no bookkeeping fields. */
  predicate IsFresh(p: PlantInfo)
  {
    p.id.None? && p.imageUrl.None? && p.timestamp.None?
  }

  /**
   * The seven required fields are exactly the schema's required list, and a
   * fresh description carries those seven and nothing else.
   */
  lemma FreshCarriesOnlyRequired(p: PlantInfo)
    ensures |SchemaRequired| == |RequiredFields| == 7
    ensures forall f :: f in SchemaRequired <==> f in RequiredFields
    ensures IsFresh(p) <==> FieldNames(p) == RequiredFields
  {
    assert |RequiredFields| == 7;
    if FieldNames(p) == RequiredFields {
      assert "id" !in RequiredFields && "imageUrl" !in RequiredFields && "timestamp" !in RequiredFields;
    }
  }

  // ---------------------------------------------------------------------------
  // Decimal rendering of a clock reading (`Date.now().toString()`)
  // ---------------------------------------------------------------------------

  predicate IsDigit(c: char) { '0' <= c <= '9' }

  function DigitChar(d: nat): (c: char)
    requires d < 10
    ensures IsDigit(c) && c as int - '0' as int == d
  {
    (d + '0' as int) as char
  }

  /** The decimal digits of `n`, most significant first, without leading zeros. */
  function Digits(n: nat): (s: string)
    ensures |s| > 0 && forall i :: 0 <= i < |s| ==> IsDigit(s[i])
    ensures |s| > 1 ==> s[0] != '0'
  {
    if n < 10 then [DigitChar(n)] else Digits(n / 10) + [DigitChar(n % 10)]
  }

  /** The decimal text of an integer clock reading, with a minus sign when negative. */
  function DecimalString(n: int): (s: string)
    ensures |s| > 0 && (s[0] == '-' <==> n < 0)
    ensures forall i :: 0 <= i < |s| && (i > 0 || n >= 0) ==> IsDigit(s[i])
    ensures |s| > 1 && n >= 0 ==> s[0] != '0'
  {
    if n < 0 then "-" + Digits(-n) else Digits(n)
  }

  /** The value of a string of decimal digits. */
  function DigitsValue(s: string): int
  {
    if s == [] then 0
    else 10 * DigitsValue(s[..|s| - 1]) + (s[|s| - 1] as int - '0' as int)
  }

  /** Reads back a decimal string. */
  function ParseDecimal(s: string): int
  {
    if |s| > 0 && s[0] == '-' then -DigitsValue(s[1..]) else DigitsValue(s)
  }

  lemma {:induction false} DigitsRoundTrip(n: nat)
    ensures DigitsValue(Digits(n)) == n
  {
    if n >= 10 {
      var s := Digits(n);
      assert s[..|s| - 1] == Digits(n / 10);
      DigitsRoundTrip(n / 10);
    }
  }

  /**
   * An id is the clock reading it was made from: reading it back gives the
   * number, so two ids are equal exactly when their clock readings are.
   */
  lemma DecimalRoundTrip(n: int, m: int)
    ensures ParseDecimal(DecimalString(n)) == n
    ensures DecimalString(n) == DecimalString(m) <==> n == m
  {
    DigitsRoundTrip(if n < 0 then -n else n);
    DigitsRoundTrip(if m < 0 then -m else m);
    if n < 0 {
      assert DecimalString(n)[1..] == Digits(-n);
    }
    if m < 0 {
      assert DecimalString(m)[1..] == Digits(-m);
    }
  }
}
