/**
 * Sort-key resolution of a full-text query session (`DelayedQuery` in
 * src/documents/index.py): the optional `ordering` query parameter becomes
 * an engine field name (or none, meaning relevance order) and a direction,
 * and both go into the engine's search call for one page.
 */
module SortOrder {
  import opened Wrappers

  /** The allow-list `sort_fields_map`: API ordering key to index field. */
  const SortFieldsMap: map<string, string> := map[
    "created" := "created",
    "modified" := "modified",
    "added" := "added",
    "title" := "title",
    "correspondent__name" := "correspondent",
    "document_type__name" := "type",
    "archive_serial_number" := "asn",
    "num_notes" := "num_notes",
    "owner" := "owner"
  ]

  /** The pair `(sortedby, reverse)`; `field == None` means "no explicit sort". */
  datatype SortSpec = SortSpec(field: Option<string>, reverse: bool)

  /** True of an ordering value that asks for descending order. */
  predicate IsDescending(ordering: string) {
    |ordering| > 0 && ordering[0] == '-'
  }

  /** The ordering key once the one leading `-` (if any) is stripped. */
  function OrderingKey(ordering: string): (key: string)
    ensures IsDescending(ordering) ==> ordering == "-" + key
    ensures !IsDescending(ordering) ==> ordering == key
  {
    if IsDescending(ordering) then ordering[1..] else ordering
  }

  /** `DelayedQuery._get_query_sortedby`. */
  function QuerySortedBy(queryParams: map<string, string>): (r: SortSpec)
    ensures "ordering" !in queryParams ==> r == SortSpec(None, false)
    ensures r.field.Some? <==>
              "ordering" in queryParams && OrderingKey(queryParams["ordering"]) in SortFieldsMap
    ensures r.field.Some? ==> r.field.value == SortFieldsMap[OrderingKey(queryParams["ordering"])]
    ensures r.reverse <==> r.field.Some? && IsDescending(queryParams["ordering"])
  {
    if "ordering" !in queryParams then SortSpec(None, false)
    else
      var ordering := queryParams["ordering"];
      var field := OrderingKey(ordering);
      var reverse := IsDescending(ordering);
      if field !in SortFieldsMap then SortSpec(None, false)
      else SortSpec(Some(SortFieldsMap[field]), reverse)
  }

  /** How a client spells "sort by `key`", descending when asked: the inverse direction. */
  function OrderingParam(key: string, descending: bool): string {
    if descending then "-" + key else key
  }

  /** No allow-listed key starts with `-`, so at most one `-` is ever stripped. */
  lemma AllowListHasNoDash(key: string)
    requires key in SortFieldsMap
    ensures !IsDescending(key)
  {
  }

  /** An allow-listed key with or without one leading `-` resolves to its field and direction. */
  lemma AllowedOrderingRoundTrip(key: string, descending: bool)
    requires key in SortFieldsMap
    ensures QuerySortedBy(map["ordering" := OrderingParam(key, descending)])
            == SortSpec(Some(SortFieldsMap[key]), descending)
  {
    var o := OrderingParam(key, descending);
    AllowListHasNoDash(key);
    if descending {
      assert IsDescending(o) && o[1..] == key;
    }
  }

  /** Any other key (written without a leading `-`) yields "no sort", and a `-` is dropped with it. */
  lemma UnknownOrderingIgnored(key: string, descending: bool)
    requires key !in SortFieldsMap && !IsDescending(key)
    ensures QuerySortedBy(map["ordering" := OrderingParam(key, descending)]) == SortSpec(None, false)
  {
    var o := OrderingParam(key, descending);
    if descending {
      assert IsDescending(o) && o[1..] == key;
    }
  }

  /** Two leading dashes never sort: only one `-` is stripped. */
  lemma DoubleDashIgnored(key: string)
    ensures QuerySortedBy(map["ordering" := "--" + key]) == SortSpec(None, false)
  {
    var o := "--" + key;
    assert IsDescending(o) && o[1..] == "-" + key;
    assert ("-" + key)[0] == '-';
  }

  datatype Order = Asc | Desc

  /** The arguments of the engine's `search` call for the page starting at `start`. */
  datatype SearchArgs = SearchArgs(offset: int, limit: int, orderByField: Option<string>, order: Order)

  /** The search call made by `DelayedQuery.__getitem__` for a slice starting at `start`. */
  function PageSearchArgs(queryParams: map<string, string>, start: int, pageSize: int): (a: SearchArgs)
    ensures a.offset == start && a.limit == pageSize
    ensures a.orderByField == QuerySortedBy(queryParams).field
    ensures a.order == Desc <==> QuerySortedBy(queryParams).reverse
    ensures a.order == Desc ==> a.orderByField.Some?
  {
    var spec := QuerySortedBy(queryParams);
    SearchArgs(start, pageSize, spec.field, if spec.reverse then Desc else Asc)
  }
}
