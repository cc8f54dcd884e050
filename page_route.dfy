/**
 * The index page: it turns the `page` and `items` search parameters into
 * `limit` and `offset`, forwards them with `sort`, `order` and `query` to
 * `getData`, and computes the page count as `Math.ceil(count / limit)`.
 */
module PageRoute {
  import opened Wrappers
  import opened Records
  import opened Query
  import opened DataStore

  /**
   * The search parameters the page reads. `page` and `items` are the
   * `parseInt` results of their strings; `None` stands for a parameter that
   * is absent or empty, both falsy.
   */
  datatype PageSearch = PageSearch(
    page: Option<int>,
    items: Option<int>,
    sort: Option<string>,
    order: Option<string>,
    query: Option<string>)

  /** Number of skaters per page: `items` when given, else 10. */
  function Limit(items: Option<int>): int
  {
    if items.Some? then items.value else 10
  }

  /** Number of skaters to skip: `(page - 1) * limit` when `page` is given, else 1. */
  function Offset(page: Option<int>, limit: int): int
  {
    if page.Some? then (page.value - 1) * limit else 1
  }

  lemma CeilingBounds(count: nat, limit: int, q: int)
    requires limit > 0 && q == (count + limit - 1) / limit
    ensures (q - 1) * limit < count <= q * limit
  {
    var r := (count + limit - 1) % limit;
    assert count + limit - 1 == q * limit + r && 0 <= r < limit;
    assert (q - 1) * limit == q * limit - limit;
  }

  lemma NegativeCeilingBounds(count: nat, limit: int, q: int)
    requires limit < 0 && q == -(count / -limit)
    ensures q * limit <= count < (q - 1) * limit
  {
    var m := -limit;
    var r := count % m;
    assert count == (count / m) * m + r && 0 <= r < m;
    assert q * limit == (count / m) * m;
    assert (q - 1) * limit == q * limit + m;
  }

  /**
   * `Math.ceil(count / limit)`, with `None` for the non-finite results of a
   * zero limit. The result is the least page count whose pages hold `count`
   * records (for a negative limit the mirrored bounds hold).
   */
  function PageCount(count: nat, limit: int): (pc: Option<int>)
    ensures pc.None? <==> limit == 0
    ensures limit > 0 ==> (pc.value - 1) * limit < count <= pc.value * limit
    ensures limit > 0 ==> (pc.value == 0 <==> count == 0)
    ensures limit < 0 ==> pc.value * limit <= count < (pc.value - 1) * limit
  {
    if limit == 0 then None
    else if limit > 0 then
      var q := (count + limit - 1) / limit;
      CeilingBounds(count, limit, q);
      Some(q)
    else
      var q := -(count / -limit);
      NegativeCeilingBounds(count, limit, q);
      Some(q)
  }

  /**
   * The pages tile the filtered records: with a positive limit, the record at
   * index `k` is at position `k % limit` of page `k / limit + 1`, a page that
   * lies within the page count.
   */
  lemma {:induction false} PagesTile<T>(s: seq<T>, limit: int, k: int)
    requires limit > 0 && 0 <= k < |s|
    ensures var page := k / limit + 1;
      var offset := Offset(Some(page), limit);
      var window := Slice(s, offset, offset + limit);
      && 1 <= page <= PageCount(|s|, limit).value
      && k % limit < |window| && window[k % limit] == s[k]
  {
    var q, r := k / limit, k % limit;
    DivMod(k, limit);
    IndexPageWithinCount(|s|, limit, k);
    assert Offset(Some(q + 1), limit) == q * limit;
    PageSlot(s, limit, q, r);
  }

  lemma DivMod(k: int, limit: int)
    requires limit > 0 && k >= 0
    ensures k == (k / limit) * limit + k % limit && 0 <= k % limit < limit && k / limit >= 0
  {
  }

  /** Slot `r` of the page starting at `q * limit` holds record `q * limit + r`. */
  lemma PageSlot<T>(s: seq<T>, limit: int, q: int, r: int)
    requires limit > 0 && q >= 0 && 0 <= r < limit && q * limit + r < |s|
    ensures r < |Slice(s, q * limit, q * limit + limit)|
    ensures Slice(s, q * limit, q * limit + limit)[r] == s[q * limit + r]
  {
    SliceWindow(s, q * limit, limit);
  }

  /** The page holding index `k` is numbered at most the page count. */
  lemma IndexPageWithinCount(n: nat, limit: int, k: int)
    requires limit > 0 && 0 <= k < n
    ensures k / limit + 1 <= PageCount(n, limit).value
  {
    var q := k / limit;
    DivMod(k, limit);
    var pc := PageCount(n, limit).value;
    assert q * limit < pc * limit;
    LessFromProduct(q, pc, limit);
  }

  lemma LessFromProduct(a: int, b: int, c: int)
    requires c > 0 && a * c < b * c
    ensures a < b
  {
  }

  /** Every page from 1 to the page count starts inside the data, so it is not empty. */
  lemma PageWithinCountIsNonEmpty<T>(s: seq<T>, limit: int, page: int)
    requires limit > 0
    requires 1 <= page <= PageCount(|s|, limit).value
    ensures 0 <= Offset(Some(page), limit) < |s|
    ensures |Slice(s, Offset(Some(page), limit), Offset(Some(page), limit) + limit)| > 0
  {
    var pc := PageCount(|s|, limit).value;
    assert (page - 1) * limit <= (pc - 1) * limit;
    SliceWindow(s, Offset(Some(page), limit), limit);
  }

  /**
   * Without a `page` parameter the offset is 1, not 0: the page shown starts
   * at the second record, while page 1 starts at the first.
   */
  lemma AbsentPageSkipsFirstRecord<T>(s: seq<T>, limit: int)
    requires limit > 0 && |s| > 0
    ensures Offset(None, limit) == 1 && Offset(Some(1), limit) == 0
    ensures Slice(s, Offset(None, limit), Offset(None, limit) + limit) == s[1..Min(limit + 1, |s|)]
    ensures Slice(s, Offset(Some(1), limit), Offset(Some(1), limit) + limit) == s[..Min(limit, |s|)]
  {
    SliceWindow(s, 1, limit);
    SliceWindow(s, 0, limit);
  }

  /**
   * The page's query: `limit` and `offset` from the search parameters, and
   * `sort`, `order` and `query` passed on unchanged; the page count comes
   * from the filtered count.
   */
  method IndexPage(store: SkaterStore, search: PageSearch)
    returns (rows: seq<Skater>, pageCount: Option<int>, ghost sorted: seq<Skater>)
    modifies store.data
    ensures var limit := Limit(search.items);
      var offset := Offset(search.page, limit);
      var filtered := Filtered(old(store.data[..]), search.query);
      && SortStep(sorted, filtered, search.sort, search.order)
      && rows == Slice(sorted, offset, offset + limit)
      && pageCount == PageCount(|filtered|, limit)
    ensures if Truthy(search.query) then store.data[..] == old(store.data[..]) else store.data[..] == sorted
  {
    var limit := Limit(search.items);
    var offset := Offset(search.page, limit);
    var count;
    rows, count, sorted := store.GetData(limit, offset, search.sort, search.order, search.query);
    pageCount := PageCount(count, limit);
  }
}
