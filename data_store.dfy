/**
 * The mock dataset and the query engine over it: record generation
 * (`range`, `makeData`), the module-level `data` array generated once, and
 * `getData`, whose `.sort` reorders that shared array in place when no query
 * is given.
 */
module DataStore {
  import opened Wrappers
  import opened Records
  import opened Query

  /** `range(len)`: the indices `0 .. len - 1`, pushed one by one. */
  method Range(len: int) returns (arr: seq<int>)
    ensures |arr| == if len > 0 then len else 0
    ensures forall i :: 0 <= i < |arr| ==> arr[i] == i
  {
    arr := [];
    var i := 0;
    while i < len
      invariant 0 <= i <= (if len > 0 then len else 0)
      invariant |arr| == i
      invariant forall k :: 0 <= k < i ==> arr[k] == k
    {
      arr := arr + [i];
      i := i + 1;
    }
  }

  /**
   * `makeData(...lens)`: `lens[0]` records (none when no length is given),
   * the `i`-th being `draw(i)`, the record the random generator produces on
   * its `i`-th call.
   */
  method MakeData(lens: seq<int>, draw: int -> Skater) returns (rows: seq<Skater>)
    ensures |rows| == if |lens| > 0 && lens[0] > 0 then lens[0] else 0
    ensures forall i :: 0 <= i < |rows| ==> rows[i] == draw(i)
  {
    var len := if |lens| > 0 then lens[0] else 0;
    var indices := Range(len);
    rows := seq(|indices|, i requires 0 <= i < |indices| => draw(indices[i]));
  }

  /**
   * `array.sort(comparator)` for the comparator of `getData`: an insertion
   * sort that leaves the same rows in the array, ordered by the field.
   */
  method SortInPlace(a: array<Skater>, f: Field, d: Direction)
    modifies a
    ensures multiset(a[..]) == multiset(old(a[..]))
    ensures SortedBy(a[..], f, d)
  {
    var i := 0;
    while i < a.Length
      invariant 0 <= i <= a.Length
      invariant multiset(a[..]) == multiset(old(a[..]))
      invariant SortedBetween(a[..], f, d, 0, i)
    {
      InsertAt(a, i, f, d);
      i := i + 1;
    }
    assert SortedBetween(a[..], f, d, 0, a.Length);
  }

  /** Rows `lo .. hi - 1` are in order. */
  predicate SortedBetween(s: seq<Skater>, f: Field, d: Direction, lo: int, hi: int)
    requires 0 <= lo <= hi <= |s|
  {
    forall k, l :: lo <= k < l < hi ==> Precedes(d, KeyOf(s[k], f), KeyOf(s[l], f))
  }

  /**
   * While `s[j]` moves left through the sorted `s[..i + 1]`: both sides of
   * it are sorted, and everything left of it precedes everything right of it.
   */
  predicate Inserting(s: seq<Skater>, f: Field, d: Direction, j: int, i: int)
  {
    && 0 <= j <= i < |s|
    && SortedBetween(s, f, d, 0, j)
    && SortedBetween(s, f, d, j, i + 1)
    && PrecedesAcross(s, f, d, j, i)
  }

  /** Every row left of `s[j]` precedes every row right of it, up to `s[i]`. */
  predicate PrecedesAcross(s: seq<Skater>, f: Field, d: Direction, j: int, i: int)
    requires 0 <= j <= i < |s|
  {
    forall k, l :: 0 <= k < j < l <= i ==> Precedes(d, KeyOf(s[k], f), KeyOf(s[l], f))
  }

  lemma InsertingSwap(s: seq<Skater>, f: Field, d: Direction, j: int, i: int)
    requires Inserting(s, f, d, j, i) && j > 0
    requires !Precedes(d, KeyOf(s[j - 1], f), KeyOf(s[j], f))
    ensures Inserting(s[j - 1 := s[j]][j := s[j - 1]], f, d, j - 1, i)
  {
    var t := s[j - 1 := s[j]][j := s[j - 1]];
    PrecedesTotal(d, KeyOf(s[j - 1], f), KeyOf(s[j], f));
    SwapKeepsLeft(s, f, d, j, i);
    SwapSortsRight(s, f, d, j, i);
    SwapKeepsCross(s, f, d, j, i);
  }

  lemma SwapKeepsLeft(s: seq<Skater>, f: Field, d: Direction, j: int, i: int)
    requires Inserting(s, f, d, j, i) && j > 0
    ensures SortedBetween(s[j - 1 := s[j]][j := s[j - 1]], f, d, 0, j - 1)
  {
    var t := s[j - 1 := s[j]][j := s[j - 1]];
    assert forall m :: 0 <= m < j - 1 ==> t[m] == s[m];
  }

  lemma SwapSortsRight(s: seq<Skater>, f: Field, d: Direction, j: int, i: int)
    requires Inserting(s, f, d, j, i) && j > 0
    requires Precedes(d, KeyOf(s[j], f), KeyOf(s[j - 1], f))
    ensures SortedBetween(s[j - 1 := s[j]][j := s[j - 1]], f, d, j - 1, i + 1)
  {
    var t := s[j - 1 := s[j]][j := s[j - 1]];
    forall k, l | j - 1 <= k < l <= i
      ensures Precedes(d, KeyOf(t[k], f), KeyOf(t[l], f))
    {
      if k == j - 1 && l == j {
      } else if k == j - 1 {
        assert t[k] == s[j] && t[l] == s[l];
      } else if k == j {
        assert t[k] == s[j - 1] && t[l] == s[l];
        assert 0 <= j - 1 < j < l <= i;
      } else {
        assert t[k] == s[k] && t[l] == s[l];
      }
    }
  }

  lemma SwapKeepsCross(s: seq<Skater>, f: Field, d: Direction, j: int, i: int)
    requires Inserting(s, f, d, j, i) && j > 0
    ensures PrecedesAcross(s[j - 1 := s[j]][j := s[j - 1]], f, d, j - 1, i)
  {
    var t := s[j - 1 := s[j]][j := s[j - 1]];
    forall k, l | 0 <= k < j - 1 < l <= i
      ensures Precedes(d, KeyOf(t[k], f), KeyOf(t[l], f))
    {
      if l == j {
        assert t[k] == s[k] && t[l] == s[j - 1];
      } else {
        assert 0 <= k < j < l <= i;
      }
    }
  }

  lemma InsertingDone(s: seq<Skater>, f: Field, d: Direction, j: int, i: int)
    requires Inserting(s, f, d, j, i)
    requires j == 0 || Precedes(d, KeyOf(s[j - 1], f), KeyOf(s[j], f))
    ensures SortedBetween(s, f, d, 0, i + 1)
  {
    if j > 0 {
      forall k | 0 <= k < j - 1
        ensures Precedes(d, KeyOf(s[k], f), KeyOf(s[j], f))
      {
        PrecedesTransitive(d, KeyOf(s[k], f), KeyOf(s[j - 1], f), KeyOf(s[j], f));
      }
    }
  }

  /** Moves `a[i]` left until `a[..i + 1]` is sorted, given that `a[..i]` is. */
  method InsertAt(a: array<Skater>, i: int, f: Field, d: Direction)
    requires 0 <= i < a.Length
    requires SortedBetween(a[..], f, d, 0, i)
    modifies a
    ensures multiset(a[..]) == multiset(old(a[..]))
    ensures SortedBetween(a[..], f, d, 0, i + 1)
    ensures a[i + 1..] == old(a[i + 1..])
  {
    var j := i;
    while j > 0 && !Precedes(d, KeyOf(a[j - 1], f), KeyOf(a[j], f))
      invariant Inserting(a[..], f, d, j, i)
      invariant multiset(a[..]) == multiset(old(a[..]))
      invariant a[i + 1..] == old(a[i + 1..])
    {
      InsertingSwap(a[..], f, d, j, i);
      a[j - 1], a[j] := a[j], a[j - 1];
      j := j - 1;
    }
    InsertingDone(a[..], f, d, j, i);
  }

  /** The size of the dataset generated at module initialisation. */
  const DatasetSize := 240

  /** The module-level `data` array, shared by every call of `getData`. */
  class SkaterStore {
    var data: array<Skater>

    /** `export const data = makeData(240)`. */
    constructor (draw: int -> Skater)
      ensures fresh(data)
      ensures data.Length == DatasetSize
      ensures forall i :: 0 <= i < DatasetSize ==> data[i] == draw(i)
    {
      var rows := MakeData([DatasetSize], draw);
      data := new Skater[|rows|](i requires 0 <= i < |rows| => rows[i]);
    }

    /**
     * `getData({limit, offset, sort, order, query})`. A truthy query filters
     * into a new array; otherwise the shared array itself is sorted, and the
     * new order is what later calls see. `sorted` is the whole sorted
     * sequence the page is cut from.
     */
    method GetData(limit: int, offset: int, sort: Option<string>, order: Option<string>, query: Option<string>)
      returns (page: seq<Skater>, count: nat, ghost sorted: seq<Skater>)
      modifies data
      ensures count == |Filtered(old(data[..]), query)|
      ensures SortStep(sorted, Filtered(old(data[..]), query), sort, order)
      ensures page == Slice(sorted, offset, offset + limit)
      ensures if Truthy(query) then data[..] == old(data[..]) else data[..] == sorted
    {
      var filtered: array<Skater>;
      if Truthy(query) {
        var kept := FilterBy(data[..], query.value);
        filtered := new Skater[|kept|](i requires 0 <= i < |kept| => kept[i]);
        assert filtered[..] == kept;
      } else {
        filtered := data;
      }
      assert filtered[..] == Filtered(old(data[..]), query);
      var field := SortField(sort);
      if field.Some? {
        SortInPlace(filtered, field.value, DirectionOf(order));
      }
      sorted := filtered[..];
      page := Slice(filtered[..], offset, offset + limit);
      count := filtered.Length;
    }
  }

  /**
   * A sorting call with no query reorders the shared dataset: a later call
   * with neither query nor sort pages through the rows in the new order.
   */
  method LaterCallSeesNewOrder(store: SkaterStore, f: Field) returns (later: seq<Skater>)
    modifies store.data
    ensures SortedBy(store.data[..], f, Ascending)
    ensures multiset(store.data[..]) == multiset(old(store.data[..]))
    ensures later == store.data[..]
  {
    FieldNamedRoundTrip(f);
    assert SortField(Some(FieldName(f))) == Some(f);
    assert DirectionOf(Some("asc")) == Ascending;
    var _, _, sorted := store.GetData(10, 0, Some(FieldName(f)), Some("asc"), None);
    ghost var mid := store.data[..];
    var n := store.data.Length;
    var count;
    ghost var again;
    later, count, again := store.GetData(n, 0, None, None, None);
    assert again == mid && |mid| == n;
    assert Slice(again, 0, n) == again;
  }
}
