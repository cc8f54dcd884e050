/**
 * The Skater record of the mock dataset, its fields as a closed enumeration
 * with one accessor each, and the field values the query engine compares.
 */
module Records {
  import opened Wrappers
  import Strings

  datatype StanceTag = Mongo | Goofy

  /** The string stored in the `stance` field. */
  function StanceName(t: StanceTag): string
  {
    match t
    case Mongo => "mongo"
    case Goofy => "goofy"
  }

  /**
   * One row of the dataset. `createdAt` is optional in the record type; a
   * Date is represented by its time value in milliseconds, which is what
   * JavaScript's `<` and `>` compare.
   */
  datatype Skater = Skater(
    id: string,
    name: string,
    age: int,
    email: string,
    stats: int,
    stance: StanceTag,
    deckPrice: int,
    createdAt: Option<int>)

  /** The keys of a Skater, usable as a sort key. */
  datatype Field = Id | Name | Age | Email | Stats | Stance | DeckPrice | CreatedAt

  function FieldName(f: Field): string
  {
    match f
    case Id => "id"
    case Name => "name"
    case Age => "age"
    case Email => "email"
    case Stats => "stats"
    case Stance => "stance"
    case DeckPrice => "deckPrice"
    case CreatedAt => "createdAt"
  }

  /** The field a sort parameter names, if it names one. */
  function FieldNamed(s: string): (r: Option<Field>)
    ensures r.Some? ==> FieldName(r.value) == s
  {
    if s == "id" then Some(Id)
    else if s == "name" then Some(Name)
    else if s == "age" then Some(Age)
    else if s == "email" then Some(Email)
    else if s == "stats" then Some(Stats)
    else if s == "stance" then Some(Stance)
    else if s == "deckPrice" then Some(DeckPrice)
    else if s == "createdAt" then Some(CreatedAt)
    else None
  }

  /** Every field is found again by its own name. */
  lemma FieldNamedRoundTrip(f: Field)
    ensures FieldNamed(FieldName(f)) == Some(f)
  {
  }

  /** A field value as JavaScript sees it: a string, a number, or a missing key. */
  datatype Value = Text(s: string) | Number(n: int) | Absent

  /**
   * `Object.values(row)`: the own properties in declaration order; a missing
   * `createdAt` contributes nothing.
   */
  function Values(r: Skater): (vs: seq<Value>)
    ensures |vs| == if r.createdAt.Some? then 8 else 7
    ensures Absent !in vs
  {
    [Text(r.id), Text(r.name), Number(r.age), Text(r.email), Number(r.stats),
     Text(StanceName(r.stance)), Number(r.deckPrice)]
    + (if r.createdAt.Some? then [Number(r.createdAt.value)] else [])
  }

  /** `row[field]`, with `Absent` when `field in row` is false. */
  function KeyOf(r: Skater, f: Field): (v: Value)
    ensures v.Absent? <==> f == CreatedAt && r.createdAt.None?
    ensures v.Text? <==> f in {Id, Name, Email, Stance}
  {
    match f
    case Id => Text(r.id)
    case Name => Text(r.name)
    case Age => Number(r.age)
    case Email => Text(r.email)
    case Stats => Number(r.stats)
    case Stance => Text(StanceName(r.stance))
    case DeckPrice => Number(r.deckPrice)
    case CreatedAt => if r.createdAt.Some? then Number(r.createdAt.value) else Absent
  }

  /** Both values are strings, or both are numbers. */
  predicate SameKind(a: Value, b: Value)
  {
    (a.Text? && b.Text?) || (a.Number? && b.Number?)
  }

  /** Two present values of one field are always of the same kind. */
  lemma KeysOfOneFieldSameKind(r1: Skater, r2: Skater, f: Field)
    requires !KeyOf(r1, f).Absent? && !KeyOf(r2, f).Absent?
    ensures SameKind(KeyOf(r1, f), KeyOf(r2, f))
  {
  }

  /** JavaScript's `a < b` on two present values of the same kind. */
  ghost predicate JsLess(a: Value, b: Value)
  {
    match (a, b)
    case (Text(x), Text(y)) => Strings.Less(x, y)
    case (Number(x), Number(y)) => x < y
    case _ => false
  }

  /**
   * A total preorder on values: numbers by value, strings lexicographically,
   * every number before every string, and `Absent` after everything.
   */
  predicate AtMost(a: Value, b: Value)
  {
    match (a, b)
    case (_, Absent) => true
    case (Absent, _) => false
    case (Number(x), Number(y)) => x <= y
    case (Text(x), Text(y)) => Strings.AtMost(x, y)
    case (Number(_), Text(_)) => true
    case (Text(_), Number(_)) => false
  }

  lemma AtMostTotal(a: Value, b: Value)
    ensures AtMost(a, b) || AtMost(b, a)
  {
    if a.Text? && b.Text? {
      Strings.AtMostTotal(a.s, b.s);
    }
  }

  lemma AtMostTransitive(a: Value, b: Value, c: Value)
    requires AtMost(a, b) && AtMost(b, c)
    ensures AtMost(a, c)
  {
    if a.Text? && b.Text? && c.Text? {
      Strings.AtMostTransitive(a.s, b.s, c.s);
    }
  }

  /** On two present values of one kind, the preorder is "not greater" in JavaScript's sense. */
  lemma AtMostIffNotGreater(a: Value, b: Value)
    requires SameKind(a, b)
    ensures AtMost(a, b) <==> !JsLess(b, a)
  {
    if a.Text? {
      Strings.AtMostIffNotGreater(a.s, b.s);
    }
  }
}
