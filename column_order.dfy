/**
 * The column-order policy that `export_to_csv`, `export_to_excel` and
 * `export_to_markdown` each carry a copy of: collect every key of every
 * extracted item, put the primary fields that occur first in their fixed
 * order, then the remaining keys in sorted order, and show three of them
 * under friendlier names.
 */
module ColumnOrder {
  import opened JsonValue
  import opened Text

  const PrimaryFields: seq<string> := ["name", "info.meta.description", "info.params.system"]

  /** `header_mapping`. */
  const HeaderMapping: map<string, string> :=
    map["name" := "name", "info.meta.description" := "description", "info.params.system" := "system_prompt"]

  /** `header_mapping.get(field, field)`. */
  function DisplayName(key: string): string {
    if key in HeaderMapping then HeaderMapping[key] else key
  }

  /** The header row for a column list. */
  function Header(cols: seq<string>): (h: seq<string>)
    ensures |h| == |cols|
    ensures forall i :: 0 <= i < |cols| ==> h[i] == DisplayName(cols[i])
  {
    seq(|cols|, i requires 0 <= i < |cols| => DisplayName(cols[i]))
  }

  /** The loop that renames the columns: `header_mapping.get(field, field)` for each. */
  method HeaderRow(cols: seq<string>) returns (h: seq<string>)
    ensures h == Header(cols)
  {
    h := [];
    for i := 0 to |cols|
      invariant |h| == i
      invariant forall k :: 0 <= k < i ==> h[k] == DisplayName(cols[k])
    {
      h := h + [DisplayName(cols[i])];
    }
  }

  /** `set(item.keys())`. */
  function KeySet(item: Members): set<string> {
    set i | 0 <= i < |item| :: item[i].0
  }

  /** `all_keys` once every item has been added. */
  function KeyUnion(items: seq<Members>): set<string>
    decreases |items|
  {
    if |items| == 0 then {} else KeyUnion(items[..|items| - 1]) + KeySet(items[|items| - 1])
  }

  /** `[x for x in s if x in keys]`. */
  function FilterIn(s: seq<string>, keys: set<string>): seq<string>
    decreases |s|
  {
    if |s| == 0 then []
    else FilterIn(s[..|s| - 1], keys) + (if s[|s| - 1] in keys then [s[|s| - 1]] else [])
  }

  /**
   * `fieldnames` as the three exporters build it from the key set: the
   * present primary fields in their fixed order, then `sorted` of the rest.
   */
  ghost predicate IsColumnOrder(cols: seq<string>, keys: set<string>) {
    var p := FilterIn(PrimaryFields, keys);
    |p| <= |cols| && cols[..|p|] == p &&
    IsSortedListing(cols[|p|..], keys - set x | x in PrimaryFields)
  }

  /** `sorted(keys)`. */
  method SortStrings(keys: set<string>) returns (r: seq<string>)
    ensures IsSortedListing(r, keys)
  {
    r := [];
    var todo := keys;
    while todo != {}
      invariant todo <= keys
      invariant IsSortedListing(r, keys - todo)
      decreases |todo|
    {
      var k :| k in todo;
      r := InsertSorted(r, k);
      todo := todo - {k};
    }
  }

  /** `all_keys = set()` followed by `all_keys.update(item.keys())` for every item. */
  method AllKeys(items: seq<Members>) returns (allKeys: set<string>)
    ensures allKeys == KeyUnion(items)
  {
    allKeys := {};
    for i := 0 to |items|
      invariant allKeys == KeyUnion(items[..i])
    {
      var item := items[i];
      for j := 0 to |item|
        invariant allKeys == KeyUnion(items[..i]) + KeySet(item[..j])
      {
        assert KeySet(item[..j + 1]) == KeySet(item[..j]) + {item[j].0};
        allKeys := allKeys + {item[j].0};
      }
      assert item[..|item|] == item;
      assert items[..i + 1][..i] == items[..i];
    }
    assert items[..|items|] == items;
  }

  /** The loop over the primary fields: each one present is appended and removed from `all_keys`. */
  method TakePrimary(primary: seq<string>, keys: set<string>) returns (taken: seq<string>, remaining: set<string>)
    requires Distinct(primary)
    ensures taken == FilterIn(primary, keys)
    ensures remaining == keys - set x | x in primary
  {
    taken, remaining := [], keys;
    for k := 0 to |primary|
      invariant taken == FilterIn(primary[..k], keys)
      invariant remaining == keys - set x | x in primary[..k]
    {
      assert primary[..k + 1][..k] == primary[..k];
      assert primary[k] !in primary[..k];
      if primary[k] in remaining {
        taken := taken + [primary[k]];
        remaining := remaining - {primary[k]};
      }
    }
    assert primary[..|primary|] == primary;
  }

  /** The shared ordering code: build `all_keys`, take out the primary fields, append the sorted rest. */
  method OrderColumns(items: seq<Members>) returns (fieldnames: seq<string>)
    ensures IsColumnOrder(fieldnames, KeyUnion(items))
  {
    var allKeys := AllKeys(items);
    var primary, remaining := TakePrimary(PrimaryFields, allKeys);
    var rest := SortStrings(remaining);
    fieldnames := primary + rest;
    assert fieldnames[|primary|..] == rest;
  }

  lemma {:induction false} FilterInMembers(s: seq<string>, keys: set<string>)
    ensures forall x :: x in FilterIn(s, keys) <==> x in s && x in keys
    decreases |s|
  {
    if |s| > 0 {
      FilterInMembers(s[..|s| - 1], keys);
      assert s == s[..|s| - 1] + [s[|s| - 1]];
    }
  }

  lemma {:induction false} FilterInDistinct(s: seq<string>, keys: set<string>)
    requires Distinct(s)
    ensures Distinct(FilterIn(s, keys))
    decreases |s|
  {
    if |s| > 0 {
      var init := s[..|s| - 1];
      FilterInDistinct(init, keys);
      FilterInMembers(init, keys);
      assert s[|s| - 1] !in init;
    }
  }

  /** `FilterIn` keeps a sequence whose every element passes. */
  lemma {:induction false} FilterInAll(s: seq<string>, keys: set<string>)
    requires forall x :: x in s ==> x in keys
    ensures FilterIn(s, keys) == s
    decreases |s|
  {
    if |s| > 0 {
      FilterInAll(s[..|s| - 1], keys);
      assert s == s[..|s| - 1] + [s[|s| - 1]];
    }
  }

  /** The column list is a permutation of the key set: nothing missing, nothing extra, nothing twice. */
  lemma ColumnsArePermutationOfKeys(cols: seq<string>, keys: set<string>)
    requires IsColumnOrder(cols, keys)
    ensures Distinct(cols)
    ensures forall x :: x in cols <==> x in keys
  {
    var p := FilterIn(PrimaryFields, keys);
    var rest := cols[|p|..];
    assert cols == p + rest;
    FilterInMembers(PrimaryFields, keys);
    FilterInDistinct(PrimaryFields, keys);
    SortedIsDistinct(rest);
    forall i, j | 0 <= i < j < |cols| ensures cols[i] != cols[j] {
      if j < |p| {
      } else if i >= |p| {
        assert cols[i] == rest[i - |p|] && cols[j] == rest[j - |p|];
      } else {
        assert cols[i] in p && cols[j] in rest;
      }
    }
  }

  /** Every present primary field comes before every other column. */
  lemma PrimaryFieldsFirst(cols: seq<string>, keys: set<string>, i: int, j: int)
    requires IsColumnOrder(cols, keys)
    requires 0 <= i < |cols| && 0 <= j < |cols|
    requires cols[i] in PrimaryFields && cols[j] !in PrimaryFields
    ensures i < j
  {
    var p := FilterIn(PrimaryFields, keys);
    FilterInMembers(PrimaryFields, keys);
    assert forall k :: 0 <= k < |p| ==> cols[k] == p[k] && cols[k] in PrimaryFields;
    var rest := cols[|p|..];
    forall k | |p| <= k < |cols| ensures cols[k] !in PrimaryFields {
      assert cols[k] == rest[k - |p|] && rest[k - |p|] in rest;
    }
  }

  /** The order depends on the key set alone, so the three exporters agree on it. */
  lemma ColumnOrderUnique(a: seq<string>, b: seq<string>, keys: set<string>)
    requires IsColumnOrder(a, keys) && IsColumnOrder(b, keys)
    ensures a == b
  {
    var p := FilterIn(PrimaryFields, keys);
    SortedListingUnique(a[|p|..], b[|p|..], keys - set x | x in PrimaryFields);
    assert a == p + a[|p|..] && b == p + b[|p|..];
  }

  /**
   * `export_to_excel` keeps `[col for col in fieldnames if col in df.columns]`;
   * the data frame's columns are the key set, so nothing is dropped.
   */
  lemma ExcelKeepsEveryColumn(cols: seq<string>, keys: set<string>)
    requires IsColumnOrder(cols, keys)
    ensures FilterIn(cols, keys) == cols
  {
    ColumnsArePermutationOfKeys(cols, keys);
    FilterInAll(cols, keys);
  }

  /** No two columns get the same header unless a key literally named `description` or `system_prompt` is exported. */
  lemma HeadersDistinct(cols: seq<string>)
    requires Distinct(cols)
    requires "description" !in cols && "system_prompt" !in cols
    ensures Distinct(Header(cols))
  {
    forall i, j | 0 <= i < j < |cols| ensures DisplayName(cols[i]) != DisplayName(cols[j]) {
      assert cols[i] != cols[j];
    }
  }

  /** The keys of every item are columns. */
  lemma {:induction false} KeyUnionHasItemKeys(items: seq<Members>, j: int, key: string)
    requires 0 <= j < |items|
    requires HasKey(items[j], key)
    ensures key in KeyUnion(items)
    decreases |items|
  {
    var n := |items| - 1;
    if j < n {
      KeyUnionHasItemKeys(items[..n], j, key);
    } else {
      var i :| 0 <= i < |items[j]| && items[j][i].0 == key;
    }
  }
}
