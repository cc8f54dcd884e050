/**
 * A URL query as an ordered list of name-value pairs, with `get`, `getAll`,
 * `set` and `delete` as section 6.2 of the WHATWG URL Standard defines them
 * for the URLSearchParams class, and the table's `createQueryString`, which
 * copies the current parameters and applies a record of updates.
 */
module UrlParams {
  import opened Wrappers
  import Numbers

  type Pair = (string, string)

  /** `getAll(name)`: the values of the pairs named `name`, in list order. */
  function ValuesNamed(list: seq<Pair>, name: string): seq<string>
  {
    if list == [] then []
    else (if list[0].0 == name then [list[0].1] else []) + ValuesNamed(list[1..], name)
  }

  /** `get(name)`: the value of the first pair named `name`. */
  function FirstNamed(list: seq<Pair>, name: string): Option<string>
  {
    var vs := ValuesNamed(list, name);
    if vs == [] then None else Some(vs[0])
  }

  /** The position of the first pair named `name`. */
  function FirstIndex(list: seq<Pair>, name: string): (i: nat)
    requires ValuesNamed(list, name) != []
    ensures i < |list| && list[i].0 == name
    ensures forall k :: 0 <= k < i ==> list[k].0 != name
  {
    if list[0].0 == name then 0 else 1 + FirstIndex(list[1..], name)
  }

  /** `delete(name)`: remove every pair named `name`. */
  function DeletePairs(list: seq<Pair>, name: string): seq<Pair>
  {
    if list == [] then []
    else (if list[0].0 == name then [] else [list[0]]) + DeletePairs(list[1..], name)
  }

  /** The first pair named `name` takes `value`; the later ones are removed. */
  function ReplaceFirst(list: seq<Pair>, name: string, value: string): seq<Pair>
    requires ValuesNamed(list, name) != []
  {
    if list[0].0 == name then [(name, value)] + DeletePairs(list[1..], name)
    else [list[0]] + ReplaceFirst(list[1..], name, value)
  }

  /** `set(name, value)`: replace the first pair named `name` and drop the rest, or append. */
  function SetPair(list: seq<Pair>, name: string, value: string): seq<Pair>
  {
    if ValuesNamed(list, name) == [] then list + [(name, value)]
    else ReplaceFirst(list, name, value)
  }

  lemma {:induction false} ValuesNamedAppend(a: seq<Pair>, b: seq<Pair>, m: string)
    ensures ValuesNamed(a + b, m) == ValuesNamed(a, m) + ValuesNamed(b, m)
  {
    if a != [] {
      ValuesNamedAppend(a[1..], b, m);
      assert (a + b)[1..] == a[1..] + b;
    } else {
      assert a + b == b;
    }
  }

  /** After `delete(name)` no pair has that name, and every other name keeps its values. */
  lemma {:induction false} DeleteSpec(list: seq<Pair>, name: string, m: string)
    ensures ValuesNamed(DeletePairs(list, name), m) == if m == name then [] else ValuesNamed(list, m)
  {
    if list != [] {
      DeleteSpec(list[1..], name, m);
      ValuesNamedAppend(if list[0].0 == name then [] else [list[0]], DeletePairs(list[1..], name), m);
    }
  }

  lemma {:induction false} ReplaceFirstSpec(list: seq<Pair>, name: string, value: string, m: string)
    requires ValuesNamed(list, name) != []
    ensures ValuesNamed(ReplaceFirst(list, name, value), m) == if m == name then [value] else ValuesNamed(list, m)
  {
    if list[0].0 == name {
      DeleteSpec(list[1..], name, m);
      ValuesNamedAppend([(name, value)], DeletePairs(list[1..], name), m);
    } else {
      ReplaceFirstSpec(list[1..], name, value, m);
      ValuesNamedAppend([list[0]], ReplaceFirst(list[1..], name, value), m);
    }
  }

  /** After `set(name, value)` the name has exactly the one value, and every other name keeps its values. */
  lemma SetSpec(list: seq<Pair>, name: string, value: string, m: string)
    ensures ValuesNamed(SetPair(list, name, value), m) == if m == name then [value] else ValuesNamed(list, m)
  {
    if ValuesNamed(list, name) == [] {
      ValuesNamedAppend(list, [(name, value)], m);
    } else {
      ReplaceFirstSpec(list, name, value, m);
    }
  }

  /** `set` on a present name rewrites the first such pair where it stands; the pairs before it are untouched. */
  lemma {:induction false} SetInPlace(list: seq<Pair>, name: string, value: string)
    requires ValuesNamed(list, name) != []
    ensures var i, r := FirstIndex(list, name), SetPair(list, name, value);
      i < |r| && r[..i] == list[..i] && r[i] == (name, value)
  {
    ReplaceFirstInPlace(list, name, value);
  }

  lemma {:induction false} ReplaceFirstInPlace(list: seq<Pair>, name: string, value: string)
    requires ValuesNamed(list, name) != []
    ensures var i, r := FirstIndex(list, name), ReplaceFirst(list, name, value);
      i < |r| && r[..i] == list[..i] && r[i] == (name, value)
  {
    if list[0].0 != name {
      ReplaceFirstInPlace(list[1..], name, value);
      var i, r := FirstIndex(list, name), ReplaceFirst(list, name, value);
      assert r[..i] == [list[0]] + ReplaceFirst(list[1..], name, value)[..i - 1];
      assert list[..i] == [list[0]] + list[1..][..i - 1];
    }
  }

  // ---------------------------------------------------------------------------
  // createQueryString
  // ---------------------------------------------------------------------------

  /** A value of the `params` record: `null`, a string or a number. */
  datatype ParamValue = Null | Str(s: string) | Num(n: int)

  /** `String(value)`. */
  function ValueString(v: ParamValue): string
    requires !v.Null?
  {
    match v
    case Str(s) => s
    case Num(n) => Numbers.DecimalString(n)
  }

  /** One step of the loop: `delete` for a null value, `set` otherwise. */
  function ApplyEntry(list: seq<Pair>, key: string, value: ParamValue): seq<Pair>
  {
    if value.Null? then DeletePairs(list, key) else SetPair(list, key, ValueString(value))
  }

  /** The loop over `Object.entries(params)`, first entry first. */
  function ApplyEntries(list: seq<Pair>, entries: seq<(string, ParamValue)>): seq<Pair>
  {
    if entries == [] then list
    else
      var last := entries[|entries| - 1];
      ApplyEntry(ApplyEntries(list, entries[..|entries| - 1]), last.0, last.1)
  }

  /** The keys of an object's entries are distinct. */
  predicate DistinctKeys(entries: seq<(string, ParamValue)>)
  {
    forall i, j :: 0 <= i < j < |entries| ==> entries[i].0 != entries[j].0
  }

  /** The value the entries give `m`, if any entry is named `m` (the last one wins). */
  function EntryFor(entries: seq<(string, ParamValue)>, m: string): Option<ParamValue>
  {
    if entries == [] then None
    else if entries[|entries| - 1].0 == m then Some(entries[|entries| - 1].1)
    else EntryFor(entries[..|entries| - 1], m)
  }

  /** With distinct keys, the entry at index `i` is the one for its key. */
  lemma {:induction false} EntryForDistinct(entries: seq<(string, ParamValue)>, i: int)
    requires DistinctKeys(entries) && 0 <= i < |entries|
    ensures EntryFor(entries, entries[i].0) == Some(entries[i].1)
  {
    if i < |entries| - 1 {
      EntryForDistinct(entries[..|entries| - 1], i);
    }
  }

  lemma {:induction false} EntryForAbsent(entries: seq<(string, ParamValue)>, m: string)
    requires forall i :: 0 <= i < |entries| ==> entries[i].0 != m
    ensures EntryFor(entries, m) == None
  {
    if entries != [] {
      EntryForAbsent(entries[..|entries| - 1], m);
    }
  }

  /** What the updated query holds for each name, entry by entry. */
  lemma {:induction false} ApplyEntriesSpec(list: seq<Pair>, entries: seq<(string, ParamValue)>, m: string)
    ensures ValuesNamed(ApplyEntries(list, entries), m) ==
      match EntryFor(entries, m)
      case None => ValuesNamed(list, m)
      case Some(Null) => []
      case Some(v) => [ValueString(v)]
  {
    if entries != [] {
      var prefix, last := entries[..|entries| - 1], entries[|entries| - 1];
      ApplyEntriesSpec(list, prefix, m);
      if last.1.Null? {
        DeleteSpec(ApplyEntries(list, prefix), last.0, m);
      } else {
        SetSpec(ApplyEntries(list, prefix), last.0, ValueString(last.1), m);
      }
    }
  }

  /** A key given a null value is absent from the new query. */
  lemma NullEntryDeletes(list: seq<Pair>, entries: seq<(string, ParamValue)>, i: int)
    requires DistinctKeys(entries) && 0 <= i < |entries| && entries[i].1.Null?
    ensures ValuesNamed(ApplyEntries(list, entries), entries[i].0) == []
    ensures FirstNamed(ApplyEntries(list, entries), entries[i].0) == None
  {
    EntryForDistinct(entries, i);
    ApplyEntriesSpec(list, entries, entries[i].0);
  }

  /** A key given a non-null value appears exactly once, with `String(value)`, replacing earlier values. */
  lemma ValueEntrySets(list: seq<Pair>, entries: seq<(string, ParamValue)>, i: int)
    requires DistinctKeys(entries) && 0 <= i < |entries| && !entries[i].1.Null?
    ensures ValuesNamed(ApplyEntries(list, entries), entries[i].0) == [ValueString(entries[i].1)]
    ensures FirstNamed(ApplyEntries(list, entries), entries[i].0) == Some(ValueString(entries[i].1))
  {
    EntryForDistinct(entries, i);
    ApplyEntriesSpec(list, entries, entries[i].0);
  }

  /** A key the entries do not name keeps exactly the values it had. */
  lemma OtherKeysKept(list: seq<Pair>, entries: seq<(string, ParamValue)>, m: string)
    requires forall i :: 0 <= i < |entries| ==> entries[i].0 != m
    ensures ValuesNamed(ApplyEntries(list, entries), m) == ValuesNamed(list, m)
    ensures FirstNamed(ApplyEntries(list, entries), m) == FirstNamed(list, m)
  {
    EntryForAbsent(entries, m);
    ApplyEntriesSpec(list, entries, m);
  }

  /** A URLSearchParams object: its list of name-value pairs, updated in place. */
  class SearchParams {
    var list: seq<Pair>

    /** `new URLSearchParams(init)`. */
    constructor (init: seq<Pair>)
      ensures list == init
    {
      list := init;
    }

    function Get(name: string): Option<string>
      reads this
    {
      FirstNamed(list, name)
    }

    method Set(name: string, value: string)
      modifies this
      ensures list == SetPair(old(list), name, value)
    {
      list := SetPair(list, name, value);
    }

    method Delete(name: string)
      modifies this
      ensures list == DeletePairs(old(list), name)
    {
      list := DeletePairs(list, name);
    }
  }

  /**
   * `createQueryString(params)`: a fresh copy of the current parameters with
   * each entry applied in turn. The method may modify nothing that exists on
   * entry, so `current` is left as it was.
   */
  method CreateQueryString(current: SearchParams, params: seq<(string, ParamValue)>) returns (query: seq<Pair>)
    ensures query == ApplyEntries(current.list, params)
  {
    var next := new SearchParams(current.list);
    for i := 0 to |params|
      invariant next.list == ApplyEntries(current.list, params[..i])
    {
      var (key, value) := params[i];
      assert params[..i + 1][..i] == params[..i];
      if value.Null? {
        next.Delete(key);
      } else {
        next.Set(key, ValueString(value));
      }
    }
    assert params[..|params|] == params;
    query := next.list;
  }
}
