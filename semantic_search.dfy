/** The request path of the Flask search page: filter extraction from the
    query, the FAISS ordinal to `parent_asin` mapping, the SQL WHERE clause
    with its parameter binding, and the loop that copies the fetched rows into
    the page. The language models, the index search and the database
    connection are parameters or are left out. */
module SemanticSearch {

  import opened Wrappers
  import opened Seqs
  import opened TextCleaning
  import opened Json

  // ---------------------------------------------------------------------------
  // extract_filters

  predicate StartsWithBrace(s: string) {
    |s| > 0 && s[0] == '{'
  }

  predicate EndsWithBrace(s: string) {
    |s| > 0 && s[|s| - 1] == '}'
  }

  /** Wraps the generated text in braces when it neither starts with '{' nor
      ends with '}'; otherwise leaves it alone. */
  function RepairBraces(s: string): (r: string)
    ensures StartsWithBrace(r) || EndsWithBrace(r)
    ensures StartsWithBrace(s) || EndsWithBrace(s) ==> r == s
    ensures r == s || (|r| == |s| + 2 && r[1..|r| - 1] == s)
  {
    if !StartsWithBrace(s) && !EndsWithBrace(s) then "{" + s + "}" else s
  }

  /** Repairing twice is repairing once. */
  lemma RepairBracesIdempotent(s: string)
    ensures RepairBraces(RepairBraces(s)) == RepairBraces(s)
  {
  }

  /** `extract_filters` once the model has produced `generated`: the repaired
      text decoded as JSON, where `jsonLoads` stands for `json.loads` and
      `None` for a `JSONDecodeError`, which is caught and turned into `None`. */
  function ExtractFilters(generated: string, jsonLoads: string -> Option<Json>): (r: Option<Json>)
    ensures StartsWithBrace(generated) || EndsWithBrace(generated) ==> r == jsonLoads(generated)
    ensures !StartsWithBrace(generated) && !EndsWithBrace(generated) ==> r == jsonLoads("{" + generated + "}")
  {
    jsonLoads(RepairBraces(generated))
  }

  /** The `filters` value of a POST request. `generate` stands for tokenising
      the stripped query, running the FLAN-T5 model and decoding its output;
      `None` means one of those raised, and then the handler falls back to an
      empty dict. */
  function RequestFilters(query: string, generate: string -> Option<string>,
                          jsonLoads: string -> Option<Json>): (r: Option<Json>)
    ensures generate(Strip(query)).None? ==> r == Some(JObject([]))
    ensures r.None? <==> generate(Strip(query)).Some? && jsonLoads(RepairBraces(generate(Strip(query)).value)).None?
    ensures generate(Strip(query)).Some? ==> r == ExtractFilters(generate(Strip(query)).value, jsonLoads)
  {
    match generate(Strip(query))
    case None => Some(JObject([]))
    case Some(generated) => ExtractFilters(generated, jsonLoads)
  }

  // ---------------------------------------------------------------------------
  // top_parent_asins

  /** Python's `xs[i]`: a negative index counts from the end. */
  function PyIndex<T>(xs: seq<T>, i: int): (r: T)
    requires -|xs| <= i < |xs|
    ensures r in xs
  {
    if i >= 0 then xs[i] else xs[|xs| + i]
  }

  /** `[parent_asins[i] for i in indices[0]]`; `None` is the `IndexError` an
      out-of-range ordinal raises, which nothing catches. */
  function TopParentAsins(ordinals: seq<int>, asins: seq<string>): (r: Option<seq<string>>)
    ensures r.Some? <==> forall i :: 0 <= i < |ordinals| ==> -|asins| <= ordinals[i] < |asins|
    ensures r.Some? ==> (|r.value| == |ordinals|
      && forall i :: 0 <= i < |ordinals| ==> r.value[i] == PyIndex(asins, ordinals[i]))
  {
    if |ordinals| == 0 then Some([])
    else if !(-|asins| <= ordinals[0] < |asins|) then None
    else
      match TopParentAsins(ordinals[1..], asins)
      case None =>
        assert !(-|asins| <= ordinals[1..][0] < |asins|) || exists i :: 1 <= i < |ordinals| && !(-|asins| <= ordinals[i] < |asins|);
        None
      case Some(rest) =>
        assert forall i :: 1 <= i < |ordinals| ==> ordinals[i] == ordinals[1..][i - 1];
        Some([PyIndex(asins, ordinals[0])] + rest)
  }

  /** FAISS reports a missing neighbour as ordinal -1, which Python indexing
      turns into the last `parent_asin` rather than an error. */
  lemma MissingNeighbourIsLastAsin(ordinals: seq<int>, asins: seq<string>, i: int)
    requires |asins| > 0 && 0 <= i < |ordinals| && ordinals[i] == -1
    requires TopParentAsins(ordinals, asins).Some?
    ensures TopParentAsins(ordinals, asins).value[i] == asins[|asins| - 1]
  {
  }

  // ---------------------------------------------------------------------------
  // The SQL statement

  /** A row of the `products` table; the nullable columns are options. */
  datatype Product = Product(
    parentAsin: string,
    title: Option<string>,
    averageRating: Option<real>,
    ratingNumber: Option<int>,
    features: Option<string>,
    description: Option<string>,
    details: Option<string>,
    price: Option<real>,
    subcategory: Option<string>)

  /** The values bound to the seven `%s IS NULL OR column op %s` conditions;
      `None` is SQL NULL. */
  datatype SqlParams = SqlParams(
    priceMin: Option<real>,
    priceMax: Option<real>,
    reviewCountMin: Option<real>,
    reviewCountMax: Option<real>,
    ratingMin: Option<real>,
    ratingMax: Option<real>,
    subcategory: Option<string>)

  const Unbounded := SqlParams(None, None, None, None, None, None, None)

  /** `filters.get(key)` bound where a number is compared: a missing key or
      JSON null is NULL, a number binds as itself, a string is cast by the
      server (`castNumeric`, `None` when the text is no number), and anything
      else makes the statement fail, which the outer `None` stands for. */
  function NumericParam(v: Option<Json>, castNumeric: string -> Option<real>): (r: Option<Option<real>>)
    ensures v.None? || v == Some(JNull) ==> r == Some(None)
    ensures v.Some? && v.value.JInt? ==> r == Some(Some(v.value.i as real))
    ensures v.Some? && v.value.JFloat? ==> r == Some(Some(v.value.f))
    ensures v.Some? && v.value.JString? && castNumeric(v.value.s).Some? ==> r == Some(castNumeric(v.value.s))
    ensures r.None? <==>
      v.Some? && !(v.value.JNull? || IsNumber(v.value) || (v.value.JString? && castNumeric(v.value.s).Some?))
    ensures r.Some? && r.value.Some? ==>
      v.Some? && ((IsNumber(v.value) && NumberValue(v.value) == r.value.value)
                  || (v.value.JString? && castNumeric(v.value.s) == r.value))
  {
    match v
    case None => Some(None)
    case Some(JNull) => Some(None)
    case Some(JInt(i)) => Some(Some(i as real))
    case Some(JFloat(f)) => Some(Some(f))
    case Some(JString(s)) => if castNumeric(s).Some? then Some(castNumeric(s)) else None
    case Some(_) => None
  }

  /** `filters.get('subcategory')` bound where it is compared with a text
      column: only a string or NULL is accepted. */
  function TextParam(v: Option<Json>): (r: Option<Option<string>>)
    ensures v.None? || v == Some(JNull) ==> r == Some(None)
    ensures v.Some? && v.value.JString? ==> r == Some(Some(v.value.s))
    ensures r.None? <==> v.Some? && !(v.value.JNull? || v.value.JString?)
    ensures r.Some? && r.value.Some? ==> v == Some(JString(r.value.value))
  {
    match v
    case None => Some(None)
    case Some(JNull) => Some(None)
    case Some(JString(s)) => Some(Some(s))
    case Some(_) => None
  }

  /** The parameter tuple of `cursor.execute`. `None` when building or
      executing it raises: `filters` is `None` or not a dict (no `.get`), or a
      value cannot be compared with its column. */
  function BindParams(filters: Option<Json>, castNumeric: string -> Option<real>): (r: Option<SqlParams>)
    ensures r.Some? <==> (filters.Some? && filters.value.JObject?
      && forall key :: KeyBinds(Get(filters.value.members, KeyName(key)), key, castNumeric))
    ensures r.Some? ==> forall key :: key != Subcategory ==>
      Some(NumericBound(r.value, key)) == NumericParam(Get(filters.value.members, KeyName(key)), castNumeric)
    ensures r.Some? ==> Some(r.value.subcategory) == TextParam(Get(filters.value.members, KeyName(Subcategory)))
  {
    match filters
    case Some(JObject(m)) =>
      var lookup := (key: Key) => Get(m, KeyName(key));
      BindLookupsMeaning(lookup, castNumeric);
      BindLookups(lookup, castNumeric)
    case _ => None
  }

  /** The value under `key` can be bound where the statement compares it. */
  predicate KeyBinds(v: Option<Json>, key: Key, castNumeric: string -> Option<real>) {
    if key == Subcategory then TextParam(v).Some? else NumericParam(v, castNumeric).Some?
  }

  /** The parameter a numeric key binds. */
  function NumericBound(q: SqlParams, key: Key): Option<real>
    requires key != Subcategory
  {
    match key
    case PriceMin => q.priceMin
    case PriceMax => q.priceMax
    case ReviewCountMin => q.reviewCountMin
    case ReviewCountMax => q.reviewCountMax
    case RatingMin => q.ratingMin
    case RatingMax => q.ratingMax
  }

  /** The column a numeric key bounds. */
  function Column(p: Product, key: Key): Option<real>
    requires key != Subcategory
  {
    match key
    case PriceMin | PriceMax => p.price
    case ReviewCountMin | ReviewCountMax => RatingNumber(p)
    case RatingMin | RatingMax => p.averageRating
  }

  /** The `_min` keys are compared with `>=`, the `_max` keys with `<=`. */
  predicate IsLowerBound(key: Key) {
    key == PriceMin || key == ReviewCountMin || key == RatingMin
  }

  /** The seven lookups bind exactly when each of them does, and then each
      parameter is what its lookup binds to. */
  lemma BindLookupsMeaning(lookup: Key -> Option<Json>, castNumeric: string -> Option<real>)
    ensures BindLookups(lookup, castNumeric).Some? <==> forall key :: KeyBinds(lookup(key), key, castNumeric)
    ensures BindLookups(lookup, castNumeric).Some? ==> forall key :: key != Subcategory ==>
      Some(NumericBound(BindLookups(lookup, castNumeric).value, key)) == NumericParam(lookup(key), castNumeric)
    ensures BindLookups(lookup, castNumeric).Some? ==>
      Some(BindLookups(lookup, castNumeric).value.subcategory) == TextParam(lookup(Subcategory))
  {
    assert KeyBinds(lookup(PriceMin), PriceMin, castNumeric) && KeyBinds(lookup(PriceMax), PriceMax, castNumeric)
      && KeyBinds(lookup(ReviewCountMin), ReviewCountMin, castNumeric)
      && KeyBinds(lookup(ReviewCountMax), ReviewCountMax, castNumeric)
      && KeyBinds(lookup(RatingMin), RatingMin, castNumeric) && KeyBinds(lookup(RatingMax), RatingMax, castNumeric)
      && KeyBinds(lookup(Subcategory), Subcategory, castNumeric)
      <==> BindLookups(lookup, castNumeric).Some?;
    if BindLookups(lookup, castNumeric).Some? {
      var q := BindLookups(lookup, castNumeric).value;
      forall key | key != Subcategory
        ensures Some(NumericBound(q, key)) == NumericParam(lookup(key), castNumeric)
      {
        match key
        case PriceMin =>
        case PriceMax =>
        case ReviewCountMin =>
        case ReviewCountMax =>
        case RatingMin =>
        case RatingMax =>
      }
    }
  }

  /** The seven filter keys the statement reads. */
  datatype Key = PriceMin | PriceMax | ReviewCountMin | ReviewCountMax | RatingMin | RatingMax | Subcategory

  function KeyName(key: Key): string {
    match key
    case PriceMin => "price_min"
    case PriceMax => "price_max"
    case ReviewCountMin => "review_count_min"
    case ReviewCountMax => "review_count_max"
    case RatingMin => "average_rating_min"
    case RatingMax => "average_rating_max"
    case Subcategory => "subcategory"
  }

  /** The seven parameters, each taken from `filters.get(key)`. */
  function BindLookups(lookup: Key -> Option<Json>, castNumeric: string -> Option<real>): Option<SqlParams> {
    BindAll(NumericParam(lookup(PriceMin), castNumeric),
            NumericParam(lookup(PriceMax), castNumeric),
            NumericParam(lookup(ReviewCountMin), castNumeric),
            NumericParam(lookup(ReviewCountMax), castNumeric),
            NumericParam(lookup(RatingMin), castNumeric),
            NumericParam(lookup(RatingMax), castNumeric),
            TextParam(lookup(Subcategory)))
  }

  /** The statement runs only if all seven parameters could be bound. */
  function BindAll(pMin: Option<Option<real>>, pMax: Option<Option<real>>,
                   cMin: Option<Option<real>>, cMax: Option<Option<real>>,
                   aMin: Option<Option<real>>, aMax: Option<Option<real>>,
                   sub: Option<Option<string>>): Option<SqlParams>
  {
    if pMin.Some? && pMax.Some? && cMin.Some? && cMax.Some? && aMin.Some? && aMax.Some? && sub.Some? then
      Some(SqlParams(pMin.value, pMax.value, cMin.value, cMax.value, aMin.value, aMax.value, sub.value))
    else None
  }

  /** `(b IS NULL OR column >= b)` is true: no bound, or a non-NULL column that meets it. */
  predicate AtLeast(column: Option<real>, bound: Option<real>) {
    bound.None? || (column.Some? && column.value >= bound.value)
  }

  predicate AtMost(column: Option<real>, bound: Option<real>) {
    bound.None? || (column.Some? && column.value <= bound.value)
  }

  function RatingNumber(p: Product): Option<real> {
    if p.ratingNumber.Some? then Some(p.ratingNumber.value as real) else None
  }

  /** The WHERE clause holds of row `p`. */
  predicate Selected(p: Product, ids: seq<string>, q: SqlParams) {
    && p.parentAsin in ids
    && AtLeast(p.price, q.priceMin) && AtMost(p.price, q.priceMax)
    && AtLeast(RatingNumber(p), q.reviewCountMin) && AtMost(RatingNumber(p), q.reviewCountMax)
    && AtLeast(p.averageRating, q.ratingMin) && AtMost(p.averageRating, q.ratingMax)
    && (q.subcategory.None? || p.subcategory == q.subcategory)
  }

  /** `products` after the `try` around `cursor.execute`: the selected rows, or
      `[]` when binding fails or the id tuple is empty (`IN ()` is a syntax
      error). The rows come back in table order; nothing sorts them. */
  function FetchProducts(table: seq<Product>, ids: seq<string>, params: Option<SqlParams>): (r: seq<Product>)
    ensures params.None? || |ids| == 0 ==> r == []
    ensures IsSubsequence(r, table)
    ensures params.Some? && |ids| > 0 ==> forall p :: p in r <==> p in table && Selected(p, ids, params.value)
    ensures params.Some? && |ids| > 0 ==> forall p ::
      multiset(r)[p] == if Selected(p, ids, params.value) then multiset(table)[p] else 0
  {
    if params.None? || |ids| == 0 then []
    else
      FilterCounts(table, p => Selected(p, ids, params.value));
      Filter(table, p => Selected(p, ids, params.value))
  }

  // ---------------------------------------------------------------------------
  // The request handler

  /** What the page is rendered with. */
  datatype Page = Page(results: seq<Product>, filters: Option<Json>)

  /** A rendered page, or the server error an uncaught exception produces. */
  datatype Response = Rendered(page: Page) | ServerError

  /** Step 4 of `search()`: the fetched rows appended one by one to `results`. */
  method CopyRows(products: seq<Product>) returns (results: seq<Product>)
    ensures results == products
  {
    results := [];
    var i := 0;
    while i < |products|
      invariant 0 <= i <= |products|
      invariant results == products[..i]
    {
      results := results + [products[i]];
      i := i + 1;
    }
    assert products[..|products|] == products;
  }

  /** `search()`. `formQuery` is the form's `query` field ('' when absent);
      `nearest` stands for encoding the cleaned query, normalising it and
      asking the FAISS index for its 50 nearest ordinals; `parentAsins` is the
      metadata column loaded at start-up and `table` the `products` table. */
  method Search(isPost: bool, formQuery: string,
                generate: string -> Option<string>, jsonLoads: string -> Option<Json>,
                castNumeric: string -> Option<real>, nearest: string -> seq<int>,
                parentAsins: seq<string>, table: seq<Product>)
    returns (resp: Response)
    ensures !isPost ==> resp == Rendered(Page([], None))
    ensures isPost ==>
      var query := Strip(formQuery);
      var asins := TopParentAsins(nearest(CleanText(query)), parentAsins);
      var filters := RequestFilters(query, generate, jsonLoads);
      && (resp.ServerError? <==> asins.None?)
      && (resp.Rendered? ==>
            resp.page == Page(FetchProducts(table, asins.value, BindParams(filters, castNumeric)), filters))
  {
    if !isPost {
      return Rendered(Page([], None));
    }
    var query := Strip(formQuery);
    var filters := RequestFilters(query, generate, jsonLoads);
    var asins := TopParentAsins(nearest(CleanText(query)), parentAsins);
    if asins.None? {
      return ServerError;
    }
    var products := FetchProducts(table, asins.value, BindParams(filters, castNumeric));
    var results := CopyRows(products);
    return Rendered(Page(results, filters));
  }

  // ---------------------------------------------------------------------------
  // Properties of the search path

  /** The query is stripped before `extract_filters` strips it again, so the
      model sees the same text as the cleaner. */
  lemma QueryStrippedOnce(formQuery: string)
    ensures Strip(Strip(formQuery)) == Strip(formQuery)
  {
    StripIdempotent(formQuery);
  }

  /** Output that does not decode gives `filters = None`, and then the search
      shows no products at all rather than unfiltered ones. */
  lemma UndecodableFiltersGiveNoProducts(generated: string, jsonLoads: string -> Option<Json>,
                                         castNumeric: string -> Option<real>,
                                         table: seq<Product>, ids: seq<string>)
    requires jsonLoads(RepairBraces(generated)).None?
    ensures FetchProducts(table, ids, BindParams(ExtractFilters(generated, jsonLoads), castNumeric)) == []
  {
  }

  /** Decoded output that is not an object (a list, a string, a number) has no
      `.get`, so the search shows no products either. This holds for any
      decoder; `json.loads` itself never yields a non-object from repaired
      text, since valid JSON that starts with '{' or ends with '}' is an
      object, so with it this case cannot arise. */
  lemma NonObjectFiltersGiveNoProducts(filters: Json, castNumeric: string -> Option<real>,
                                       table: seq<Product>, ids: seq<string>)
    requires !filters.JObject?
    ensures FetchProducts(table, ids, BindParams(Some(filters), castNumeric)) == []
  {
  }

  /** When the model itself fails, the fallback `{}` binds every parameter to
      NULL. */
  lemma GeneratorFailureBindsNothing(query: string, generate: string -> Option<string>,
                                     jsonLoads: string -> Option<Json>, castNumeric: string -> Option<real>)
    requires generate(Strip(query)).None?
    ensures BindParams(RequestFilters(query, generate, jsonLoads), castNumeric) == Some(Unbounded)
  {
    EmptyObjectUnbounded(castNumeric);
  }

  /** `{}` binds every parameter to NULL. */
  lemma EmptyObjectUnbounded(castNumeric: string -> Option<real>)
    ensures BindParams(Some(JObject([])), castNumeric) == Some(Unbounded)
  {
  }

  /** With no bound at all the WHERE clause is id membership alone. */
  lemma UnboundedSelectsByIdOnly(p: Product, ids: seq<string>)
    ensures Selected(p, ids, Unbounded) <==> p.parentAsin in ids
  {
  }

  /** With `filters == {}` the search returns every table row whose
      `parent_asin` is among the retrieved ones, in table order. */
  lemma EmptyFiltersSelectById(table: seq<Product>, ids: seq<string>, castNumeric: string -> Option<real>)
    requires |ids| > 0
    ensures var r := FetchProducts(table, ids, BindParams(Some(JObject([])), castNumeric));
      && IsSubsequence(r, table)
      && (forall p :: p in r <==> p in table && p.parentAsin in ids)
      && (forall p :: multiset(r)[p] == if p.parentAsin in ids then multiset(table)[p] else 0)
  {
    EmptyObjectUnbounded(castNumeric);
  }

  /** Get on an object extended by a new key. */
  lemma GetAppend(m: seq<(string, Json)>, k: string, v: Json, key: string)
    requires forall i :: 0 <= i < |m| ==> m[i].0 != k
    ensures Get(m + [(k, v)], key) == if key == k then Some(v) else Get(m, key)
  {
    if |m| > 0 {
      assert (m + [(k, v)])[1..] == m[1..] + [(k, v)];
      GetAppend(m[1..], k, v, key);
    }
  }

  /** A key whose value is JSON null binds exactly as a missing key. */
  lemma NullValueSameAsAbsent(m: seq<(string, Json)>, k: string, castNumeric: string -> Option<real>)
    requires forall i :: 0 <= i < |m| ==> m[i].0 != k
    ensures BindParams(Some(JObject(m + [(k, JNull)])), castNumeric) == BindParams(Some(JObject(m)), castNumeric)
  {
    forall key {
      GetAppendNull(m, k, key, castNumeric);
    }
    var l1 := (key: Key) => Get(m + [(k, JNull)], KeyName(key));
    var l2 := (key: Key) => Get(m, KeyName(key));
    SameLookupsSameParams(l1, l2, castNumeric);
  }

  /** Two lookups under which every key binds alike give the same parameters. */
  lemma SameLookupsSameParams(l1: Key -> Option<Json>, l2: Key -> Option<Json>, castNumeric: string -> Option<real>)
    requires forall key :: NumericParam(l1(key), castNumeric) == NumericParam(l2(key), castNumeric)
    requires forall key :: TextParam(l1(key)) == TextParam(l2(key))
    ensures BindLookups(l1, castNumeric) == BindLookups(l2, castNumeric)
  {
  }

  lemma GetAppendNull(m: seq<(string, Json)>, k: string, key: string, castNumeric: string -> Option<real>)
    requires forall i :: 0 <= i < |m| ==> m[i].0 != k
    ensures NumericParam(Get(m + [(k, JNull)], key), castNumeric) == NumericParam(Get(m, key), castNumeric)
    ensures TextParam(Get(m + [(k, JNull)], key)) == TextParam(Get(m, key))
  {
    GetAppend(m, k, JNull, key);
  }

  /** A price bound the server cannot read as a number fails the statement,
      and the search shows nothing. */
  lemma UnreadablePriceGivesNoProducts(s: string, castNumeric: string -> Option<real>,
                                       table: seq<Product>, ids: seq<string>)
    requires castNumeric(s).None?
    ensures FetchProducts(table, ids, BindParams(Some(JObject([("price_max", JString(s))])), castNumeric)) == []
  {
    var m := [("price_max", JString(s))];
    assert Get(m, KeyName(PriceMax)) == Some(JString(s));
    assert NumericParam(Some(JString(s)), castNumeric) == None;
    assert BindParams(Some(JObject(m)), castNumeric) == None;
  }

  /** A row with a NULL price fails any price bound. */
  lemma NullPriceFailsPriceBound(p: Product, ids: seq<string>, q: SqlParams)
    requires p.price.None? && (q.priceMin.Some? || q.priceMax.Some?)
    ensures !Selected(p, ids, q)
  {
  }

  /** Results are not re-ranked by similarity: with ids retrieved in the order
      [b, a] the page lists a's row first, as the table does. */
  lemma ResultsFollowTableOrder(a: Product, b: Product, ids: seq<string>)
    requires a.parentAsin != b.parentAsin && ids == [b.parentAsin, a.parentAsin]
    ensures FetchProducts([a, b], ids, Some(Unbounded)) == [a, b]
  {
    assert [a, b][1..] == [b] && [b][1..] == [];
    assert Selected(a, ids, Unbounded) && Selected(b, ids, Unbounded);
    FilterKeepsAll([a, b], p => Selected(p, ids, Unbounded));
  }

  /** Results are not cut to the 50 neighbours: every row of a retrieved
      `parent_asin` is returned, however many there are. */
  lemma ResultsNotTruncated(table: seq<Product>, asin: string)
    requires forall i :: 0 <= i < |table| ==> table[i].parentAsin == asin
    ensures FetchProducts(table, [asin], Some(Unbounded)) == table
  {
    FilterKeepsAll(table, p => Selected(p, [asin], Unbounded));
  }

  /** A numeric filter that binds is applied: every row the search returns
      has a non-NULL value in the key's column, at least the bound for a
      `_min` key and at most it for a `_max` key. */
  lemma NumericFilterApplied(m: seq<(string, Json)>, key: Key, x: real, castNumeric: string -> Option<real>,
                             table: seq<Product>, ids: seq<string>, p: Product)
    requires key != Subcategory
    requires NumericParam(Get(m, KeyName(key)), castNumeric) == Some(Some(x))
    requires p in FetchProducts(table, ids, BindParams(Some(JObject(m)), castNumeric))
    ensures Column(p, key).Some?
    ensures IsLowerBound(key) ==> Column(p, key).value >= x
    ensures !IsLowerBound(key) ==> Column(p, key).value <= x
  {
    var q := BindParams(Some(JObject(m)), castNumeric).value;
    assert NumericBound(q, key) == Some(x);
    assert Selected(p, ids, q);
    SelectedMeetsBound(p, ids, q, key);
  }

  /** A selected row meets each bound that is not NULL. */
  lemma SelectedMeetsBound(p: Product, ids: seq<string>, q: SqlParams, key: Key)
    requires key != Subcategory && Selected(p, ids, q) && NumericBound(q, key).Some?
    ensures Column(p, key).Some?
    ensures IsLowerBound(key) ==> Column(p, key).value >= NumericBound(q, key).value
    ensures !IsLowerBound(key) ==> Column(p, key).value <= NumericBound(q, key).value
  {
    match key
    case PriceMin =>
    case PriceMax =>
    case ReviewCountMin =>
    case ReviewCountMax =>
    case RatingMin =>
    case RatingMax =>
  }

  /** A JSON number under a numeric key is applied as it stands. */
  lemma NumberFilterApplied(m: seq<(string, Json)>, key: Key, x: real, castNumeric: string -> Option<real>,
                            table: seq<Product>, ids: seq<string>, p: Product)
    requires key != Subcategory
    requires Get(m, KeyName(key)).Some? && IsNumber(Get(m, KeyName(key)).value)
    requires NumberValue(Get(m, KeyName(key)).value) == x
    requires p in FetchProducts(table, ids, BindParams(Some(JObject(m)), castNumeric))
    ensures Column(p, key).Some?
    ensures IsLowerBound(key) ==> Column(p, key).value >= x
    ensures !IsLowerBound(key) ==> Column(p, key).value <= x
  {
    NumericFilterApplied(m, key, x, castNumeric, table, ids, p);
  }

  /** A string under `subcategory` is applied: every row returned has exactly
      that subcategory. */
  lemma SubcategoryFilterApplied(m: seq<(string, Json)>, sub: string, castNumeric: string -> Option<real>,
                                 table: seq<Product>, ids: seq<string>, p: Product)
    requires Get(m, KeyName(Subcategory)) == Some(JString(sub))
    requires p in FetchProducts(table, ids, BindParams(Some(JObject(m)), castNumeric))
    ensures p.subcategory == Some(sub)
  {
    var q := BindParams(Some(JObject(m)), castNumeric).value;
    assert q.subcategory == Some(sub);
    assert Selected(p, ids, q);
  }
}
