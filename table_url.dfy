/**
 * The URL state of the server-controlled table: the parameters it reads
 * with their defaults, the sorting state it derives, and the updates its
 * header cells, pagination bar and filter inputs push through
 * `createQueryString`.
 */
module TableUrl {
  import opened Wrappers
  import opened UrlParams
  import Numbers
  import Records

  /** The parameters the table reads, after defaults. */
  datatype UrlState = UrlState(
    page: string,
    items: string,
    sort: string,
    order: Option<string>,
    email: Option<string>,
    stance: Option<string>)

  /** `page`, `items` and `sort` fall back to "1", "10" and "email"; the others stay null. */
  function ReadUrl(list: seq<Pair>): (u: UrlState)
    ensures ValuesNamed(list, "page") == [] ==> u.page == "1"
    ensures ValuesNamed(list, "items") == [] ==> u.items == "10"
    ensures ValuesNamed(list, "sort") == [] ==> u.sort == "email"
    ensures ValuesNamed(list, "page") != [] ==> u.page == ValuesNamed(list, "page")[0]
    ensures ValuesNamed(list, "items") != [] ==> u.items == ValuesNamed(list, "items")[0]
    ensures ValuesNamed(list, "sort") != [] ==> u.sort == ValuesNamed(list, "sort")[0]
    ensures u.order.Some? <==> ValuesNamed(list, "order") != []
  {
    UrlState(
      FirstNamed(list, "page").GetOr("1"),
      FirstNamed(list, "items").GetOr("10"),
      FirstNamed(list, "sort").GetOr("email"),
      FirstNamed(list, "order"),
      FirstNamed(list, "email"),
      FirstNamed(list, "stance"))
  }

  /** The table's sorting state: one column sort on `sort`. */
  datatype ColumnSort = ColumnSort(id: string, desc: bool)

  /**
   * The column sort derived from the URL state: `desc` is `order === "desc"`.
   * The table computes it once, when it mounts on a URL.
   */
  function SortingState(u: UrlState): ColumnSort
  {
    ColumnSort(u.sort, u.order == Some("desc"))
  }

  /**
   * Read from a URL, the sorting state sorts the first `sort` value (email
   * when absent) and is descending exactly when the first `order` value is
   * "desc"; an absent or any other order is ascending.
   */
  lemma SortingStateFromUrl(list: seq<Pair>)
    ensures SortingState(ReadUrl(list)).desc <==> ValuesNamed(list, "order") != [] && ValuesNamed(list, "order")[0] == "desc"
    ensures SortingState(ReadUrl(list)).id == if ValuesNamed(list, "sort") == [] then "email" else ValuesNamed(list, "sort")[0]
  {
  }

  /** The 0-based page index given to the pagination control: `Number(page) - 1` (None for NaN). */
  function PageIndex(u: UrlState): Option<int>
  {
    match Numbers.ParseNumber(u.page)
    case Some(n) => Some(n - 1)
    case None => None
  }

  /** `OptStr(x)` is the params value for a string that may be null. */
  function OptStr(x: Option<string>): ParamValue
  {
    if x.Some? then Str(x.value) else Null
  }

  /** The update pushed when the pagination control moves to the 0-based `newPage`. */
  function PageChangeParams(newPage: int, u: UrlState): seq<(string, ParamValue)>
  {
    [("page", Num(newPage + 1)), ("items", Str(u.items)), ("sort", Str(u.sort)),
     ("order", OptStr(u.order)), ("email", OptStr(u.email))]
  }

  /** The update pushed when the rows-per-page choice changes to `value`. */
  function RowsPerPageParams(value: string, u: UrlState): seq<(string, ParamValue)>
  {
    [("page", Str(u.page)), ("items", Str(value)), ("sort", Str(u.sort)),
     ("order", OptStr(u.order)), ("email", OptStr(u.email))]
  }

  lemma PageChangeKeysDistinct(newPage: int, u: UrlState)
    ensures DistinctKeys(PageChangeParams(newPage, u))
  {
  }

  lemma PageChangeWritesPage(list: seq<Pair>, newPage: int, u: UrlState)
    ensures FirstNamed(ApplyEntries(list, PageChangeParams(newPage, u)), "page")
         == Some(Numbers.DecimalString(newPage + 1))
  {
    PageChangeKeysDistinct(newPage, u);
    ValueEntrySets(list, PageChangeParams(newPage, u), 0);
  }

  lemma PageChangeWritesItemsSort(list: seq<Pair>, newPage: int, u: UrlState)
    ensures var r := ApplyEntries(list, PageChangeParams(newPage, u));
      FirstNamed(r, "items") == Some(u.items) && FirstNamed(r, "sort") == Some(u.sort)
  {
    var ps := PageChangeParams(newPage, u);
    PageChangeKeysDistinct(newPage, u);
    ValueEntrySets(list, ps, 1);
    ValueEntrySets(list, ps, 2);
  }

  lemma PageChangeWritesOrderEmail(list: seq<Pair>, newPage: int, u: UrlState)
    ensures var r := ApplyEntries(list, PageChangeParams(newPage, u));
      FirstNamed(r, "order") == u.order && FirstNamed(r, "email") == u.email
  {
    var ps := PageChangeParams(newPage, u);
    PageChangeKeysDistinct(newPage, u);
    if u.order.Some? { ValueEntrySets(list, ps, 3); } else { NullEntryDeletes(list, ps, 3); }
    if u.email.Some? { ValueEntrySets(list, ps, 4); } else { NullEntryDeletes(list, ps, 4); }
  }

  /**
   * Moving to the 0-based page `newPage` writes `newPage + 1`, which the
   * table reads back as the index `newPage`; items, sort, order and email
   * are written back as they were read (so a defaulted sort becomes explicit),
   * and the stance the update does not name is kept.
   */
  lemma PageChangeRoundTrip(list: seq<Pair>, newPage: int)
    ensures var u := ReadUrl(list);
      var v := ReadUrl(ApplyEntries(list, PageChangeParams(newPage, u)));
      && PageIndex(v) == Some(newPage)
      && v.items == u.items && v.sort == u.sort && v.order == u.order && v.email == u.email
      && v.stance == u.stance
  {
    var u := ReadUrl(list);
    var ps := PageChangeParams(newPage, u);
    PageChangeWritesPage(list, newPage, u);
    PageChangeWritesItemsSort(list, newPage, u);
    PageChangeWritesOrderEmail(list, newPage, u);
    OtherKeysKept(list, ps, "stance");
    Numbers.ParseDecimalString(newPage + 1);
  }

  /** 1-based to 0-based and back: choosing the page the control shows keeps the URL's page index. */
  lemma PageIndexRoundTrip(list: seq<Pair>, index: int)
    requires PageIndex(ReadUrl(list)) == Some(index)
    ensures PageIndex(ReadUrl(ApplyEntries(list, PageChangeParams(index, ReadUrl(list))))) == Some(index)
    ensures Numbers.ParseNumber(ReadUrl(ApplyEntries(list, PageChangeParams(index, ReadUrl(list)))).page)
         == Numbers.ParseNumber(ReadUrl(list).page)
  {
    PageChangeRoundTrip(list, index);
    var v := ReadUrl(ApplyEntries(list, PageChangeParams(index, ReadUrl(list))));
    assert Numbers.ParseNumber(v.page) == Some(index + 1);
  }

  /** Changing rows per page writes the new item count and keeps the current page. */
  lemma RowsPerPageKeepsPage(list: seq<Pair>, value: string)
    ensures var u := ReadUrl(list);
      var v := ReadUrl(ApplyEntries(list, RowsPerPageParams(value, u)));
      v.items == value && v.page == u.page && v.sort == u.sort && v.order == u.order
  {
    var u := ReadUrl(list);
    var ps := RowsPerPageParams(value, u);
    assert DistinctKeys(ps);
    ValueEntrySets(list, ps, 0);
    ValueEntrySets(list, ps, 1);
    ValueEntrySets(list, ps, 2);
    if u.order.Some? { ValueEntrySets(list, ps, 3); } else { NullEntryDeletes(list, ps, 3); }
  }

  // ---------------------------------------------------------------------------
  // Header clicks
  // ---------------------------------------------------------------------------

  /** `getNextSortingOrder()`: `false`, "asc" or "desc". */
  datatype NextSort = NoSort | Asc | Desc

  function OrderName(next: NextSort): string
    requires !next.NoSort?
  {
    if next == Asc then "asc" else "desc"
  }

  /** A column of the table: its id, whether it reads a record field, and `enableSorting`. */
  datatype ColumnDef = ColumnDef(id: string, hasAccessor: bool, enableSorting: bool)

  /** The columns in display order; `age` and the selection column disable sorting. */
  const Columns: seq<ColumnDef> := [
    ColumnDef("select", false, false),
    ColumnDef("name", true, true),
    ColumnDef("age", true, false),
    ColumnDef("email", true, true),
    ColumnDef("stats", true, true),
    ColumnDef("stance", true, true),
    ColumnDef("deckPrice", true, true),
    ColumnDef("actions", false, true)]

  /** `getCanSort()`: the column reads a field and does not disable sorting. */
  predicate CanSort(c: ColumnDef)
  {
    c.hasAccessor && c.enableSorting
  }

  /** Of the table's columns, exactly name, email, stats, stance and deckPrice can sort. */
  lemma SortableColumns(c: ColumnDef)
    requires c in Columns
    ensures CanSort(c) <==> c.id in {"name", "email", "stats", "stance", "deckPrice"}
  {
  }

  /** The update a header click pushes, or none when the column cannot sort. */
  function HeaderClickParams(c: ColumnDef, next: NextSort, u: UrlState): Option<seq<(string, ParamValue)>>
  {
    if !CanSort(c) then None
    else Some([
      ("page", Str(u.page)),
      ("sort", if next.NoSort? then Null else Str(c.id)),
      ("order", if next.NoSort? then Null else Str(OrderName(next)))])
  }

  /**
   * A click on a sortable header writes `sort` and `order` together, or
   * clears both when the next direction is `false`; the page stays, and the
   * sorting state read back is descending exactly for "desc". A column that
   * cannot sort pushes nothing.
   */
  lemma HeaderClickSpec(list: seq<Pair>, c: ColumnDef, next: NextSort)
    ensures !CanSort(c) <==> HeaderClickParams(c, next, ReadUrl(list)).None?
    ensures CanSort(c) ==>
      var r := ApplyEntries(list, HeaderClickParams(c, next, ReadUrl(list)).value);
      var v := ReadUrl(r);
      && v.page == ReadUrl(list).page
      && (next.NoSort? ==> FirstNamed(r, "sort") == None && FirstNamed(r, "order") == None)
      && (next.NoSort? ==> v.sort == "email" && !SortingState(v).desc)
      && (!next.NoSort? ==> v.sort == c.id && v.order == Some(OrderName(next)))
      && (!next.NoSort? ==> SortingState(v) == ColumnSort(c.id, next == Desc))
  {
    if CanSort(c) {
      var ps := HeaderClickParams(c, next, ReadUrl(list)).value;
      assert DistinctKeys(ps);
      ValueEntrySets(list, ps, 0);
      if next.NoSort? {
        NullEntryDeletes(list, ps, 1);
        NullEntryDeletes(list, ps, 2);
      } else {
        ValueEntrySets(list, ps, 1);
        ValueEntrySets(list, ps, 2);
      }
    }
  }

  // ---------------------------------------------------------------------------
  // Filters
  // ---------------------------------------------------------------------------

  /** The filter inputs: the email search, a stance checkbox, and "Clear Filter". */
  datatype FilterChange =
    | EmailChanged(value: string)
    | StanceChecked(targetValue: string, box: Records.StanceTag)
    | StanceCleared

  function OtherStance(t: Records.StanceTag): Records.StanceTag
  {
    if t == Records.Mongo then Records.Goofy else Records.Mongo
  }

  /**
   * The stance a checkbox writes: its own when the event's target value is
   * truthy, the other one otherwise.
   */
  function CheckedStance(targetValue: string, box: Records.StanceTag): Records.StanceTag
  {
    if targetValue != "" then box else OtherStance(box)
  }

  function FilterParams(change: FilterChange): seq<(string, ParamValue)>
  {
    match change
    case EmailChanged(value) => [("page", Num(1)), ("email", Str(value))]
    case StanceChecked(targetValue, box) =>
      [("page", Num(1)), ("stance", Str(Records.StanceName(CheckedStance(targetValue, box))))]
    case StanceCleared => [("page", Num(1)), ("stance", Null)]
  }

  /** Every filter change sends the table back to page 1 (index 0) and records the filter. */
  lemma FilterChangeResetsPage(list: seq<Pair>, change: FilterChange)
    ensures var v := ReadUrl(ApplyEntries(list, FilterParams(change)));
      && v.page == "1" && PageIndex(v) == Some(0)
      && (change.EmailChanged? ==> v.email == Some(change.value))
      && (change.StanceChecked? ==>
            v.stance == Some(Records.StanceName(CheckedStance(change.targetValue, change.box))))
      && (change.StanceCleared? ==> v.stance == None)
  {
    var ps := FilterParams(change);
    assert DistinctKeys(ps);
    ValueEntrySets(list, ps, 0);
    if change.StanceCleared? {
      NullEntryDeletes(list, ps, 1);
    } else {
      ValueEntrySets(list, ps, 1);
    }
    assert Numbers.DecimalString(1) == "1";
  }
}
