/**
 * The pure steps of the mock query engine `getData`: the case-insensitive
 * filter, the sort comparator and what a sorted result must satisfy, and
 * JavaScript's `Array.prototype.slice`.
 */
module Query {
  import opened Wrappers
  import opened Records
  import Strings

  // ---------------------------------------------------------------------------
  // Filter
  // ---------------------------------------------------------------------------

  /** A `query` option is truthy when it is present and not the empty string. */
  predicate Truthy(query: Option<string>)
  {
    query.Some? && query.value != ""
  }

  /** The `.some` callback: a string field whose lower-cased form includes the lower-cased query. */
  predicate FieldMatches(v: Value, q: string)
  {
    v.Text? && Strings.Includes(Strings.Lower(v.s), Strings.Lower(q))
  }

  /** `values.some(FieldMatches)`. */
  predicate AnyMatches(vs: seq<Value>, q: string)
  {
    |vs| > 0 && (FieldMatches(vs[0], q) || AnyMatches(vs[1..], q))
  }

  /** The `.filter` callback on one row. */
  predicate Matches(r: Skater, q: string)
  {
    AnyMatches(Values(r), q)
  }

  /** Independent statement of a match: a string-valued field that contains the query, ignoring case. */
  ghost predicate TextContains(v: Value, q: string)
  {
    v.Text? && exists i :: Strings.OccursAt(Strings.Lower(v.s), Strings.Lower(q), i)
  }

  lemma {:induction false} AnyMatchesIff(vs: seq<Value>, q: string)
    ensures AnyMatches(vs, q) <==> exists i :: 0 <= i < |vs| && FieldMatches(vs[i], q)
  {
    if |vs| > 0 {
      AnyMatchesIff(vs[1..], q);
      if exists i :: 0 <= i < |vs| && FieldMatches(vs[i], q) {
        var i :| 0 <= i < |vs| && FieldMatches(vs[i], q);
        if i > 0 {
          assert FieldMatches(vs[1..][i - 1], q);
        }
      }
    }
  }

  /**
   * A row is kept exactly when one of its fields is a string containing the
   * query, ignoring case; only id, name, email and stance are strings, so
   * numbers and the creation date never match.
   */
  lemma MatchesIffTextField(r: Skater, q: string)
    ensures Matches(r, q) <==> exists f :: TextContains(KeyOf(r, f), q)
    ensures Matches(r, q) <==> exists f :: f in {Id, Name, Email, Stance} && TextContains(KeyOf(r, f), q)
  {
    var vs := Values(r);
    AnyMatchesIff(vs, q);
    forall v: Value | v.Text?
      ensures FieldMatches(v, q) <==> TextContains(v, q)
    {
      Strings.IncludesIffOccurs(Strings.Lower(v.s), Strings.Lower(q));
    }
    assert vs[0] == KeyOf(r, Id) && vs[1] == KeyOf(r, Name) && vs[2] == KeyOf(r, Age);
    assert vs[3] == KeyOf(r, Email) && vs[4] == KeyOf(r, Stats) && vs[5] == KeyOf(r, Stance);
    assert vs[6] == KeyOf(r, DeckPrice);
    if Matches(r, q) {
      var i :| 0 <= i < |vs| && FieldMatches(vs[i], q);
      assert i in {0, 1, 3, 5};
    }
    if exists f :: TextContains(KeyOf(r, f), q) {
      var f :| TextContains(KeyOf(r, f), q);
      assert FieldMatches(KeyOf(r, f), q);
    }
  }

  /** `rows.filter(row => Matches(row, q))`. */
  function FilterBy(rows: seq<Skater>, q: string): seq<Skater>
  {
    if rows == [] then []
    else (if Matches(rows[0], q) then [rows[0]] else []) + FilterBy(rows[1..], q)
  }

  /** The filter step of `getData`: a falsy query keeps every row (the same array). */
  function Filtered(rows: seq<Skater>, query: Option<string>): seq<Skater>
  {
    if Truthy(query) then FilterBy(rows, query.value) else rows
  }

  /**
   * The filter is exact in both directions and keeps every copy of a
   * matching row: each row occurs in the result as often as in the input if
   * it matches, and not at all otherwise.
   */
  lemma {:induction false} FilterByExact(rows: seq<Skater>, q: string, x: Skater)
    ensures multiset(FilterBy(rows, q))[x] == if Matches(x, q) then multiset(rows)[x] else 0
    ensures x in FilterBy(rows, q) <==> x in rows && Matches(x, q)
    ensures |FilterBy(rows, q)| <= |rows|
  {
    if rows != [] {
      FilterByExact(rows[1..], q, x);
      assert rows == [rows[0]] + rows[1..];
    }
  }

  /** A falsy query keeps the whole dataset, so the count is the dataset's size. */
  lemma FilteredFalsy(rows: seq<Skater>, query: Option<string>)
    requires !Truthy(query)
    ensures Filtered(rows, query) == rows
    ensures |Filtered(rows, query)| == |rows|
  {
  }

  // ---------------------------------------------------------------------------
  // Sort
  // ---------------------------------------------------------------------------

  datatype Direction = Ascending | Descending

  /** `order === "asc"` selects ascending; anything else, absent included, descending. */
  function DirectionOf(order: Option<string>): Direction
  {
    if order == Some("asc") then Ascending else Descending
  }

  /** The field a truthy `sort` option names; none when it is falsy or names no field. */
  function SortField(sort: Option<string>): (f: Option<Field>)
    ensures f.Some? ==> sort == Some(FieldName(f.value))
    ensures sort.Some? && FieldNamed(sort.value).Some? ==> f == FieldNamed(sort.value)
  {
    if Truthy(sort) then FieldNamed(sort.value) else None
  }

  /**
   * The comparator handed to `.sort`: 0 when either row lacks the field,
   * otherwise 1 or -1 by JavaScript's `>` (ascending) or `<` (descending);
   * it never answers 0 for two equal present keys.
   */
  ghost function Comparator(f: Field, order: Option<string>, a: Skater, b: Skater): int
  {
    var ka, kb := KeyOf(a, f), KeyOf(b, f);
    if ka.Absent? || kb.Absent? then 0
    else if order == Some("asc") then (if JsLess(kb, ka) then 1 else -1)
    else (if JsLess(ka, kb) then 1 else -1)
  }

  /**
   * The comparator is never consistent in the sense of the ECMAScript
   * definition of `Array.prototype.sort` once the field is present: a row
   * compared with itself, or with any row of equal key, gets -1 both ways.
   */
  lemma ComparatorTiesAnswerMinusOne(f: Field, order: Option<string>, a: Skater, b: Skater)
    requires !KeyOf(a, f).Absent? && KeyOf(a, f) == KeyOf(b, f)
    ensures Comparator(f, order, a, b) == -1 && Comparator(f, order, b, a) == -1
  {
    var k := KeyOf(a, f);
    if k.Text? {
      AtMostIffNotGreater(k, k);
    }
  }

  /**
   * The order the model's insertion sort uses: a total preorder that agrees
   * with the comparator on present keys and places rows lacking the field
   * last (one of the placements the comparator allows).
   */
  predicate Precedes(d: Direction, a: Value, b: Value)
  {
    if b.Absent? then true
    else if a.Absent? then false
    else if d == Ascending then AtMost(a, b)
    else AtMost(b, a)
  }

  lemma PrecedesTotal(d: Direction, a: Value, b: Value)
    ensures Precedes(d, a, b) || Precedes(d, b, a)
  {
    AtMostTotal(a, b);
  }

  lemma PrecedesTransitive(d: Direction, a: Value, b: Value, c: Value)
    requires Precedes(d, a, b) && Precedes(d, b, c)
    ensures Precedes(d, a, c)
  {
    if !a.Absent? && !b.Absent? && !c.Absent? {
      if d == Ascending {
        AtMostTransitive(a, b, c);
      } else {
        AtMostTransitive(c, b, a);
      }
    }
  }

  /**
   * Of any two rows that both have the field, the earlier one precedes the
   * later one in the chosen direction. Rows lacking the field compare 0 with
   * every row, so they may stand anywhere.
   */
  predicate SortedBy(s: seq<Skater>, f: Field, d: Direction)
  {
    forall i, j :: 0 <= i < j < |s| && !KeyOf(s[i], f).Absent? && !KeyOf(s[j], f).Absent? ==>
      Precedes(d, KeyOf(s[i], f), KeyOf(s[j], f))
  }

  /**
   * The comparator answers 0 between a row lacking the field and any other
   * row, so such a row may stand before or after a row that has it, in
   * either direction.
   */
  lemma MissingFieldAnywhere(x: Skater, y: Skater, d: Direction)
    requires x.createdAt.None? && y.createdAt.Some?
    ensures SortedBy([x, y], CreatedAt, d) && SortedBy([y, x], CreatedAt, d)
    ensures Comparator(CreatedAt, None, x, y) == 0 && Comparator(CreatedAt, Some("asc"), y, x) == 0
  {
    assert KeyOf(x, CreatedAt).Absent?;
  }

  /**
   * A sorted sequence never holds a pair that the source comparator would
   * put the other way round: ascending means nondecreasing, descending (the
   * default) nonincreasing, in JavaScript's `<` on the field's values.
   */
  lemma SortedRespectsComparator(s: seq<Skater>, f: Field, order: Option<string>, i: int, j: int)
    requires SortedBy(s, f, DirectionOf(order))
    requires 0 <= i < j < |s|
    ensures Comparator(f, order, s[i], s[j]) <= 0
    ensures !KeyOf(s[i], f).Absent? && !KeyOf(s[j], f).Absent? ==>
      if order == Some("asc") then !JsLess(KeyOf(s[j], f), KeyOf(s[i], f))
      else !JsLess(KeyOf(s[i], f), KeyOf(s[j], f))
  {
    var ki, kj := KeyOf(s[i], f), KeyOf(s[j], f);
    if !ki.Absent? && !kj.Absent? {
      assert Precedes(DirectionOf(order), ki, kj);
      KeysOfOneFieldSameKind(s[i], s[j], f);
      AtMostIffNotGreater(ki, kj);
      AtMostIffNotGreater(kj, ki);
    }
  }

  /**
   * Conversely, a sequence on which the source comparator never asks to swap
   * an earlier row with a later one is sorted: the contracts exclude no order
   * the comparator accepts.
   */
  lemma ComparatorAcceptsOnlySorted(s: seq<Skater>, f: Field, order: Option<string>)
    requires forall i, j :: 0 <= i < j < |s| ==> Comparator(f, order, s[i], s[j]) <= 0
    ensures SortedBy(s, f, DirectionOf(order))
  {
    forall i, j | 0 <= i < j < |s| && !KeyOf(s[i], f).Absent? && !KeyOf(s[j], f).Absent?
      ensures Precedes(DirectionOf(order), KeyOf(s[i], f), KeyOf(s[j], f))
    {
      assert Comparator(f, order, s[i], s[j]) <= 0;
      KeysOfOneFieldSameKind(s[i], s[j], f);
      AtMostIffNotGreater(KeyOf(s[i], f), KeyOf(s[j], f));
      AtMostIffNotGreater(KeyOf(s[j], f), KeyOf(s[i], f));
    }
  }

  /**
   * What the sort step of `getData` produces from the filtered rows: the same
   * multiset of rows, ordered by the field when `sort` names one, and left
   * in place otherwise (a falsy `sort` skips `.sort`; an unknown field makes
   * every comparison 0, and the sort is stable). Ties are in no fixed order.
   */
  ghost predicate SortStep(sorted: seq<Skater>, filtered: seq<Skater>, sort: Option<string>, order: Option<string>)
  {
    && multiset(sorted) == multiset(filtered)
    && match SortField(sort)
       case Some(f) => SortedBy(sorted, f, DirectionOf(order))
       case None => sorted == filtered
  }

  // ---------------------------------------------------------------------------
  // Page
  // ---------------------------------------------------------------------------

  /** How `slice` resolves a start or end argument against a length `n`. */
  function RelativeIndex(k: int, n: nat): (r: nat)
    ensures r <= n
    ensures 0 <= k <= n ==> r == k
  {
    if k < 0 then (if n + k < 0 then 0 else n + k)
    else if k < n then k
    else n
  }

  /** `s.slice(start, end)`. */
  function Slice<T>(s: seq<T>, start: int, end: int): seq<T>
  {
    var from, to := RelativeIndex(start, |s|), RelativeIndex(end, |s|);
    if from < to then s[from..to] else []
  }

  function Min(a: int, b: int): int
  {
    if a < b then a else b
  }

  /**
   * For nonnegative `offset` and `limit` the page is the contiguous window
   * starting at `offset`: empty from the end of the data on, and otherwise of
   * length `min(limit, n - offset)`.
   */
  lemma SliceWindow<T>(s: seq<T>, offset: int, limit: int)
    requires offset >= 0 && limit >= 0
    ensures offset >= |s| ==> Slice(s, offset, offset + limit) == []
    ensures offset < |s| ==> Slice(s, offset, offset + limit) == s[offset..Min(offset + limit, |s|)]
    ensures |Slice(s, offset, offset + limit)| == if offset >= |s| then 0 else Min(limit, |s| - offset)
  {
  }
}
