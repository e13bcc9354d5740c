/**
 * The product-list utilities: text, category, price and flag filters, the sort that works on
 * a copy, the filter pipeline, `slugify` and `isValidEmail`. All of them are pure; arrays are
 * sequences, so "works on a copy" is the value semantics of `seq`.
 */
module Helpers {
  import opened Wrappers
  import opened Text
  import opened Seqs

  /** A catalogue entry. The optional fields are the ones the code tests for presence:
      `inStock` and `freeShipping` may be missing, `discount` may be missing or zero, and
      `createdAt` is the timestamp `new Date(createdAt)` stands for (missing when falsy). */
  datatype Product = Product(
    name: string,
    category: string,
    price: int,
    rating: int,
    inStock: Option<bool>,
    freeShipping: Option<bool>,
    discount: Option<int>,
    createdAt: Option<int>)

  // ---------------------------------------------------------------- filterProductsByText

  /** The lower-cased name or category contains the (already lower-cased) search text. */
  predicate MatchesText(p: Product, lowered: string) {
    Contains(Lower(p.name), lowered) || Contains(Lower(p.category), lowered)
  }

  function TextTest(lowered: string): Product -> bool {
    (p: Product) => MatchesText(p, lowered)
  }

  function FilterByText(products: seq<Product>, searchText: string): (r: seq<Product>)
    ensures searchText == "" ==> r == products
    ensures searchText != "" ==>
      forall p :: multiset(r)[p] == if MatchesText(p, Lower(searchText)) then multiset(products)[p] else 0
    ensures IsSubsequence(r, products)
  {
    if searchText == "" then
      SubsequenceReflexive(products);
      products
    else
      Filter(products, TextTest(Lower(searchText)))
  }

  /** The search is case-insensitive: lower-casing the search text first changes nothing. */
  lemma FilterByTextIgnoresCase(products: seq<Product>, searchText: string)
    ensures FilterByText(products, Lower(searchText)) == FilterByText(products, searchText)
  {
    LowerIdempotent(searchText);
    assert Lower(searchText) == "" <==> searchText == "";
  }

  // ------------------------------------------------------------ filterProductsByCategory

  /** The `categoryMap` lookup; an unknown key gives `undefined`. */
  function CategoryLabel(key: string): (r: Option<string>)
    ensures r.Some? <==> key in {"electronics", "fashion", "home", "sports", "books", "beauty"}
    ensures r.Some? ==> r.value != ""
  {
    if key == "electronics" then Some("إلكترونيات")
    else if key == "fashion" then Some("أزياء")
    else if key == "home" then Some("منزل")
    else if key == "sports" then Some("رياضة")
    else if key == "books" then Some("كتب")
    else if key == "beauty" then Some("جمال")
    else None
  }

  /** No two keys share a label, so a label selects the products of one key only. */
  lemma CategoryLabelInjective(k1: string, k2: string)
    ensures CategoryLabel(k1).Some? && CategoryLabel(k1) == CategoryLabel(k2) ==> k1 == k2
  {
  }

  function CategoryTest(wanted: Option<string>): Product -> bool {
    (p: Product) => wanted == Some(p.category)
  }

  function FilterByCategory(products: seq<Product>, category: string): (r: seq<Product>)
    ensures category == "" || category == "all" ==> r == products
    ensures category != "" && category != "all" ==>
      forall p :: multiset(r)[p] == if CategoryLabel(category) == Some(p.category) then multiset(products)[p] else 0
    ensures category != "" && category != "all" && CategoryLabel(category).None? ==> r == []
    ensures IsSubsequence(r, products)
  {
    if category == "" || category == "all" then
      SubsequenceReflexive(products);
      products
    else
      var r := Filter(products, CategoryTest(CategoryLabel(category)));
      assert CategoryLabel(category).None? ==> forall p :: p !in r;
      r
  }

  // ---------------------------------------------------------- filterProductsByPriceRange

  function PriceTest(low: int, high: int): Product -> bool {
    (p: Product) => low <= p.price <= high
  }

  function FilterByPriceRange(products: seq<Product>, priceRange: Option<seq<int>>): (r: seq<Product>)
    ensures priceRange.None? || |priceRange.value| != 2 ==> r == products
    ensures priceRange.Some? && |priceRange.value| == 2 ==>
      forall p :: multiset(r)[p]
        == if priceRange.value[0] <= p.price <= priceRange.value[1] then multiset(products)[p] else 0
    ensures IsSubsequence(r, products)
  {
    if priceRange.None? || |priceRange.value| != 2 then
      SubsequenceReflexive(products);
      products
    else
      Filter(products, PriceTest(priceRange.value[0], priceRange.value[1]))
  }

  // ------------------------------------------------------------------- the flag filters

  /** `inStock !== false`: a missing field counts as in stock. */
  predicate InStock(p: Product) { p.inStock != Some(false) }

  /** `freeShipping === true`. */
  predicate HasFreeShipping(p: Product) { p.freeShipping == Some(true) }

  /** `discount && discount > 0`. */
  predicate OnSale(p: Product) { p.discount.Some? && p.discount.value > 0 }

  function FilterInStock(products: seq<Product>): (r: seq<Product>)
    ensures forall p :: multiset(r)[p] == if p.inStock == Some(false) then 0 else multiset(products)[p]
    ensures IsSubsequence(r, products)
  {
    Filter(products, InStock)
  }

  function FilterFreeShipping(products: seq<Product>): (r: seq<Product>)
    ensures forall p :: multiset(r)[p] == if p.freeShipping == Some(true) then multiset(products)[p] else 0
    ensures IsSubsequence(r, products)
  {
    Filter(products, HasFreeShipping)
  }

  function FilterOnSale(products: seq<Product>): (r: seq<Product>)
    ensures forall p :: multiset(r)[p] == if OnSale(p) then multiset(products)[p] else 0
    ensures IsSubsequence(r, products)
  {
    Filter(products, OnSale)
  }

  // ------------------------------------------------------------------------ sortProducts

  /** `new Date(createdAt || 0)`, with the date already parsed to a timestamp. */
  function CreatedAt(p: Product): int { p.createdAt.GetOr(0) }

  /** The comparator of each `sortBy` mode, written as the key it sorts ascending by; the
      descending modes negate their field. `name` sorts by `collate`, the rank that
      `localeCompare` induces on names. Unknown modes have no comparator. */
  function SortKey(sortBy: string, collate: string -> int): (r: Option<Product -> int>)
    ensures r.Some? <==> sortBy in {"priceLow", "priceHigh", "rating", "name", "newest"}
  {
    if sortBy == "priceLow" then Some((p: Product) => p.price)
    else if sortBy == "priceHigh" then Some((p: Product) => -p.price)
    else if sortBy == "rating" then Some((p: Product) => -p.rating)
    else if sortBy == "name" then Some((p: Product) => collate(p.name))
    else if sortBy == "newest" then Some((p: Product) => -CreatedAt(p))
    else None
  }

  function SortProducts(products: seq<Product>, sortBy: string, collate: string -> int): (r: seq<Product>)
    ensures multiset(r) == multiset(products)
    ensures SortKey(sortBy, collate).Some? ==> SortedByKey(r, SortKey(sortBy, collate).value)
    ensures sortBy == "priceLow" ==> forall i, j :: 0 <= i < j < |r| ==> r[i].price <= r[j].price
    ensures sortBy == "priceHigh" ==> forall i, j :: 0 <= i < j < |r| ==> r[i].price >= r[j].price
    ensures sortBy == "rating" ==> forall i, j :: 0 <= i < j < |r| ==> r[i].rating >= r[j].rating
    ensures sortBy == "newest" ==> forall i, j :: 0 <= i < j < |r| ==> CreatedAt(r[i]) >= CreatedAt(r[j])
    ensures sortBy == "name" ==> forall i, j :: 0 <= i < j < |r| ==> collate(r[i].name) <= collate(r[j].name)
    ensures sortBy !in {"priceLow", "priceHigh", "rating", "name", "newest"} ==> r == products
  {
    match SortKey(sortBy, collate)
    case None => products
    case Some(key) => SortByKey(products, key)
  }

  // --------------------------------------------------------------------- applyAllFilters

  /** The options object; a falsy option is the empty string, `None` or `false`. */
  datatype Filters = Filters(
    searchText: string,
    category: string,
    priceRange: Option<seq<int>>,
    inStock: bool,
    freeShipping: bool,
    onSale: bool,
    sortBy: string)

  predicate NoOptions(f: Filters) {
    f.searchText == "" && f.category == "" && f.priceRange.None?
    && !f.inStock && !f.freeShipping && !f.onSale && f.sortBy == ""
  }

  predicate PassesText(p: Product, f: Filters) {
    f.searchText != "" ==> MatchesText(p, Lower(f.searchText))
  }

  predicate PassesCategory(p: Product, f: Filters) {
    f.category != "" && f.category != "all" ==> CategoryLabel(f.category) == Some(p.category)
  }

  predicate PassesPrice(p: Product, f: Filters) {
    f.priceRange.Some? && |f.priceRange.value| == 2 ==>
      f.priceRange.value[0] <= p.price <= f.priceRange.value[1]
  }

  predicate PassesFlags(p: Product, f: Filters) {
    (f.inStock ==> InStock(p)) && (f.freeShipping ==> HasFreeShipping(p)) && (f.onSale ==> OnSale(p))
  }

  /** A product passes every filter whose option is set. */
  predicate Selected(p: Product, f: Filters) {
    PassesText(p, f) && PassesCategory(p, f) && PassesPrice(p, f) && PassesFlags(p, f)
  }

  // Each stage is one `if (filters.x) { filtered = ... }` of `applyAllFilters`.

  function TextStage(s: seq<Product>, f: Filters): (r: seq<Product>)
    ensures forall p :: multiset(r)[p] == if PassesText(p, f) then multiset(s)[p] else 0
    ensures IsSubsequence(r, s)
    ensures (forall p :: p in s ==> PassesText(p, f)) ==> r == s
  {
    if f.searchText != "" then FilterByText(s, f.searchText) else SubsequenceReflexive(s); s
  }

  function CategoryStage(s: seq<Product>, f: Filters): (r: seq<Product>)
    ensures forall p :: multiset(r)[p] == if PassesCategory(p, f) then multiset(s)[p] else 0
    ensures IsSubsequence(r, s)
    ensures (forall p :: p in s ==> PassesCategory(p, f)) ==> r == s
  {
    if f.category != "" then FilterByCategory(s, f.category) else SubsequenceReflexive(s); s
  }

  function PriceStage(s: seq<Product>, f: Filters): (r: seq<Product>)
    ensures forall p :: multiset(r)[p] == if PassesPrice(p, f) then multiset(s)[p] else 0
    ensures IsSubsequence(r, s)
    ensures (forall p :: p in s ==> PassesPrice(p, f)) ==> r == s
  {
    if f.priceRange.Some? then FilterByPriceRange(s, f.priceRange) else SubsequenceReflexive(s); s
  }

  function StockStage(s: seq<Product>, f: Filters): (r: seq<Product>)
    ensures forall p :: multiset(r)[p] == if f.inStock ==> InStock(p) then multiset(s)[p] else 0
    ensures IsSubsequence(r, s)
    ensures (forall p :: p in s ==> (f.inStock ==> InStock(p))) ==> r == s
  {
    if f.inStock then FilterInStock(s) else SubsequenceReflexive(s); s
  }

  function ShippingStage(s: seq<Product>, f: Filters): (r: seq<Product>)
    ensures forall p :: multiset(r)[p] == if f.freeShipping ==> HasFreeShipping(p) then multiset(s)[p] else 0
    ensures IsSubsequence(r, s)
    ensures (forall p :: p in s ==> (f.freeShipping ==> HasFreeShipping(p))) ==> r == s
  {
    if f.freeShipping then FilterFreeShipping(s) else SubsequenceReflexive(s); s
  }

  function SaleStage(s: seq<Product>, f: Filters): (r: seq<Product>)
    ensures forall p :: multiset(r)[p] == if f.onSale ==> OnSale(p) then multiset(s)[p] else 0
    ensures IsSubsequence(r, s)
    ensures (forall p :: p in s ==> (f.onSale ==> OnSale(p))) ==> r == s
  {
    if f.onSale then FilterOnSale(s) else SubsequenceReflexive(s); s
  }

  /** The six filters of `applyAllFilters`, in its order. */
  function FilterStages(products: seq<Product>, f: Filters): (r: seq<Product>)
    ensures forall p :: multiset(r)[p] == if Selected(p, f) then multiset(products)[p] else 0
    ensures IsSubsequence(r, products)
    ensures (forall p :: p in products ==> Selected(p, f)) ==> r == products
  {
    var a := TextStage(products, f);
    var b := CategoryStage(a, f);
    var c := PriceStage(b, f);
    var d := StockStage(c, f);
    var e := ShippingStage(d, f);
    var g := SaleStage(e, f);
    SubsequenceTransitive(b, a, products);
    SubsequenceTransitive(c, b, products);
    SubsequenceTransitive(d, c, products);
    SubsequenceTransitive(e, d, products);
    SubsequenceTransitive(g, e, products);
    g
  }

  function ApplyAllFilters(products: seq<Product>, f: Filters, collate: string -> int): (r: seq<Product>)
    ensures forall p :: multiset(r)[p] == if Selected(p, f) then multiset(products)[p] else 0
    ensures SortKey(f.sortBy, collate).None? ==> IsSubsequence(r, products)
    ensures SortKey(f.sortBy, collate).Some? ==> SortedByKey(r, SortKey(f.sortBy, collate).value)
    ensures NoOptions(f) ==> r == products
  {
    var filtered := FilterStages(products, f);
    if f.sortBy != "" then SortProducts(filtered, f.sortBy, collate) else filtered
  }

  /** Running the pipeline on its own output with the same options changes nothing. */
  lemma ApplyAllFiltersIdempotent(products: seq<Product>, f: Filters, collate: string -> int)
    ensures ApplyAllFilters(ApplyAllFilters(products, f, collate), f, collate)
         == ApplyAllFilters(products, f, collate)
  {
    var r := ApplyAllFilters(products, f, collate);
    forall p | p in r ensures Selected(p, f) {
      assert multiset(r)[p] > 0;
    }
    assert FilterStages(r, f) == r;
    match SortKey(f.sortBy, collate)
    case None =>
    case Some(key) => SortSortedIsIdentity(r, key);
  }

  // ----------------------------------------------------------------------------- slugify

  /** JavaScript's `\w`. */
  predicate IsWordChar(c: char) {
    'a' <= c <= 'z' || 'A' <= c <= 'Z' || '0' <= c <= '9' || c == '_'
  }

  /** What survives `.replace(/[^\w\s-]/g, '')`. */
  predicate SurvivesStrip(c: char) { IsWordChar(c) || IsJsSpace(c) || c == '-' }

  /** The characters `/[\s_-]+/` runs are made of. */
  predicate IsSeparator(c: char) { IsJsSpace(c) || c == '_' || c == '-' }

  predicate IsSlugChar(c: char) { IsLowerLetter(c) || IsDigit(c) || c == '-' }

  predicate NoDoubleHyphen(s: string) {
    forall i :: 0 <= i < |s| - 1 ==> !(s[i] == '-' && s[i + 1] == '-')
  }

  /** The shape of every `slugify` result. */
  predicate IsSlug(s: string) {
    && (forall i :: 0 <= i < |s| ==> IsSlugChar(s[i]))
    && NoDoubleHyphen(s)
    && (s != [] ==> s[0] != '-' && s[|s| - 1] != '-')
  }

  function SkipSeparators(s: string): (r: string)
    ensures |r| <= |s| && r == s[|s| - |r|..]
    ensures r != [] ==> !IsSeparator(r[0])
    ensures forall i :: 0 <= i < |s| - |r| ==> IsSeparator(s[i])
    decreases |s|
  {
    if s != [] && IsSeparator(s[0]) then SkipSeparators(s[1..]) else s
  }

  /** `.replace(/[\s_-]+/g, '-')`: every maximal run of separators becomes one hyphen. */
  function CollapseSeparators(s: string): (r: string)
    ensures s != [] ==> r != [] && r[0] == (if IsSeparator(s[0]) then '-' else s[0])
    ensures forall i :: 0 <= i < |r| ==> r[i] == '-' || (r[i] in s && !IsSeparator(r[i]))
    ensures NoDoubleHyphen(r)
    decreases |s|
  {
    if s == [] then []
    else if IsSeparator(s[0]) then
      var rest := SkipSeparators(s[1..]);
      var tail := CollapseSeparators(rest);
      TailCharsFrom(s, |s| - |rest|, tail);
      ConsKeepsShape('-', s, tail);
      ['-'] + tail
    else
      var tail := CollapseSeparators(s[1..]);
      TailCharsFrom(s, 1, tail);
      ConsKeepsShape(s[0], s, tail);
      [s[0]] + tail
  }

  /** Characters drawn from a suffix of `s` are drawn from `s`. */
  lemma TailCharsFrom(s: string, k: nat, tail: string)
    requires k <= |s|
    requires forall i :: 0 <= i < |tail| ==> tail[i] == '-' || (tail[i] in s[k..] && !IsSeparator(tail[i]))
    ensures forall i :: 0 <= i < |tail| ==> tail[i] == '-' || (tail[i] in s && !IsSeparator(tail[i]))
  {
    forall i | 0 <= i < |tail| && tail[i] != '-' ensures tail[i] in s {
      var j :| 0 <= j < |s[k..]| && s[k..][j] == tail[i];
      assert s[k + j] == tail[i];
    }
  }

  /** Putting a hyphen or a non-separator of `s` in front of a collapsed tail whose first
      character is not a hyphen keeps the shape `CollapseSeparators` promises. */
  lemma ConsKeepsShape(c: char, s: string, tail: string)
    requires c == '-' || (c in s && !IsSeparator(c))
    requires forall i :: 0 <= i < |tail| ==> tail[i] == '-' || (tail[i] in s && !IsSeparator(tail[i]))
    requires NoDoubleHyphen(tail)
    requires c == '-' && tail != [] ==> tail[0] != '-'
    ensures forall i :: 0 <= i < |[c] + tail| ==> ([c] + tail)[i] == '-' || (([c] + tail)[i] in s && !IsSeparator(([c] + tail)[i]))
    ensures NoDoubleHyphen([c] + tail)
  {
    var r := [c] + tail;
    forall i | 0 <= i < |r| - 1 ensures !(r[i] == '-' && r[i + 1] == '-') {
      assert r[i + 1] == tail[i];
      if i > 0 {
        assert r[i] == tail[i - 1];
      }
    }
    forall i | 0 <= i < |r| ensures r[i] == '-' || (r[i] in s && !IsSeparator(r[i])) {
      if i > 0 {
        assert r[i] == tail[i - 1];
      }
    }
  }

  predicate NotHyphen(c: char) { c != '-' }

  predicate NotSeparator(c: char) { !IsSeparator(c) }

  /** The same substitution read one character at a time: the first separator of a run gives a
      hyphen, a separator right after another gives nothing, every other character is kept. */
  function CollapseFrom(s: string, afterSeparator: bool): string
    decreases |s|
  {
    if s == [] then []
    else if IsSeparator(s[0]) then (if afterSeparator then [] else ['-']) + CollapseFrom(s[1..], true)
    else [s[0]] + CollapseFrom(s[1..], false)
  }

  /** Right after a separator, further separators add nothing. */
  lemma {:induction false} CollapseFromSkips(s: string)
    ensures CollapseFrom(s, true) == CollapseFrom(SkipSeparators(s), true)
    decreases |s|
  {
    if s != [] && IsSeparator(s[0]) {
      CollapseFromSkips(s[1..]);
    }
  }

  /** Before a character that is not a separator, whether one came just before does not matter. */
  lemma CollapseFromFlag(s: string)
    requires s == [] || !IsSeparator(s[0])
    ensures CollapseFrom(s, true) == CollapseFrom(s, false)
  {
  }

  /** Run by run and character by character give the same string. */
  lemma {:induction false} CollapseIsCharByChar(s: string)
    ensures CollapseSeparators(s) == CollapseFrom(s, false)
    decreases |s|
  {
    if s != [] {
      if IsSeparator(s[0]) {
        var rest := SkipSeparators(s[1..]);
        CollapseFromSkips(s[1..]);
        CollapseFromFlag(rest);
        CollapseIsCharByChar(rest);
      } else {
        CollapseIsCharByChar(s[1..]);
      }
    }
  }

  /** Collapsing keeps every character that is not a separator, in order, and adds nothing but
      hyphens. */
  lemma {:induction false} CollapseKeepsOthers(s: string)
    ensures Filter(CollapseSeparators(s), NotHyphen) == Filter(s, NotSeparator)
    decreases |s|
  {
    if s != [] {
      assert s == [s[0]] + s[1..];
      FilterCons(s[0], s[1..], NotSeparator);
      if IsSeparator(s[0]) {
        var rest := SkipSeparators(s[1..]);
        SkippedAreSeparators(s[1..]);
        CollapseKeepsOthers(rest);
        FilterCons('-', CollapseSeparators(rest), NotHyphen);
      } else {
        CollapseKeepsOthers(s[1..]);
        FilterCons(s[0], CollapseSeparators(s[1..]), NotHyphen);
      }
    }
  }

  /** The separators `SkipSeparators` passes over contribute nothing to the kept characters. */
  lemma SkippedAreSeparators(s: string)
    ensures Filter(s, NotSeparator) == Filter(SkipSeparators(s), NotSeparator)
  {
    var rest := SkipSeparators(s);
    var k := |s| - |rest|;
    assert s == s[..k] + rest;
    FilterSkipsRejectedPrefix(s[..k], rest, NotSeparator);
  }

  function TrimLeadingHyphens(s: string): (r: string)
    ensures |r| <= |s| && r == s[|s| - |r|..]
    ensures forall i :: 0 <= i < |s| - |r| ==> s[i] == '-'
    ensures r != [] ==> r[0] != '-'
    decreases |s|
  {
    if s != [] && s[0] == '-' then TrimLeadingHyphens(s[1..]) else s
  }

  function TrimTrailingHyphens(s: string): (r: string)
    ensures |r| <= |s| && r == s[..|r|]
    ensures forall i :: |r| <= i < |s| ==> s[i] == '-'
    ensures r != [] ==> r[|r| - 1] != '-'
    decreases |s|
  {
    if s != [] && s[|s| - 1] == '-' then TrimTrailingHyphens(s[..|s| - 1]) else s
  }

  /** `r` is the slice of `s` that starts at `i`, and everything of `s` before or after that
      slice is a hyphen. */
  predicate EndsCutAt(s: string, r: string, i: int) {
    && 0 <= i && i + |r| <= |s| && r == s[i..i + |r|]
    && (forall k :: 0 <= k < i ==> s[k] == '-')
    && (forall k :: i + |r| <= k < |s| ==> s[k] == '-')
  }

  /** `.replace(/^-+|-+$/g, '')`. */
  function TrimHyphens(s: string): (r: string)
    ensures exists i :: EndsCutAt(s, r, i)
    ensures r != [] ==> r[0] != '-' && r[|r| - 1] != '-'
    ensures Filter(r, NotHyphen) == Filter(s, NotHyphen)
  {
    var lead := TrimLeadingHyphens(s);
    var r := TrimTrailingHyphens(lead);
    CutBothEnds(s, lead, r);
    TrimBothEnds(s);
    TrimOnlyHyphens(s);
    r
  }

  /** A hyphen-only prefix cut off `s` and a hyphen-only suffix cut off the rest leave a slice. */
  lemma CutBothEnds(s: string, lead: string, r: string)
    requires |lead| <= |s| && lead == s[|s| - |lead|..]
    requires forall k :: 0 <= k < |s| - |lead| ==> s[k] == '-'
    requires |r| <= |lead| && r == lead[..|r|]
    requires forall k :: |r| <= k < |lead| ==> lead[k] == '-'
    ensures EndsCutAt(s, r, |s| - |lead|)
  {
    var i := |s| - |lead|;
    forall k | i + |r| <= k < |s| ensures s[k] == '-' {
      assert s[k] == lead[k - i];
    }
    assert r == s[i..i + |r|];
  }

  /** Neither end of the trimmed string is a hyphen. */
  lemma TrimBothEnds(s: string)
    ensures var r := TrimTrailingHyphens(TrimLeadingHyphens(s));
      r != [] ==> r[0] != '-' && r[|r| - 1] != '-'
  {
    var lead := TrimLeadingHyphens(s);
    var r := TrimTrailingHyphens(lead);
    if r != [] {
      assert r[0] == lead[0];
    }
  }

  /** Trimming removes hyphens only. */
  lemma TrimOnlyHyphens(s: string)
    ensures Filter(TrimTrailingHyphens(TrimLeadingHyphens(s)), NotHyphen) == Filter(s, NotHyphen)
  {
    LeadingTrimKeepsOthers(s);
    TrailingTrimKeepsOthers(TrimLeadingHyphens(s));
  }

  lemma LeadingTrimKeepsOthers(s: string)
    ensures Filter(TrimLeadingHyphens(s), NotHyphen) == Filter(s, NotHyphen)
  {
    var lead := TrimLeadingHyphens(s);
    var k := |s| - |lead|;
    var dropped := s[..k];
    forall i | 0 <= i < |dropped| ensures !NotHyphen(dropped[i]) {
      assert dropped[i] == s[i];
    }
    assert s == dropped + lead;
    FilterSkipsRejectedPrefix(dropped, lead, NotHyphen);
  }

  lemma TrailingTrimKeepsOthers(s: string)
    ensures Filter(TrimTrailingHyphens(s), NotHyphen) == Filter(s, NotHyphen)
  {
    var r := TrimTrailingHyphens(s);
    var dropped := s[|r|..];
    forall i | 0 <= i < |dropped| ensures !NotHyphen(dropped[i]) {
      assert dropped[i] == s[|r| + i];
    }
    assert s == r + dropped;
    FilterSkipsRejectedSuffix(r, dropped, NotHyphen);
  }

  /** A character of the lowered text that ends up in a slug: a word character other than `_`. */
  predicate InSlugWord(c: char) { SurvivesStrip(c) && NotSeparator(c) }

  /** The three replacements keep the lowered text's word characters other than `_`, in order,
      and add nothing but hyphens. */
  lemma SlugKeepsWords(text: string)
    ensures Filter(TrimHyphens(CollapseSeparators(Filter(Lower(text), SurvivesStrip))), NotHyphen)
         == Filter(Lower(text), InSlugWord)
  {
    var stripped := Filter(Lower(text), SurvivesStrip);
    CollapseKeepsOthers(stripped);
    FilterFilter(Lower(text), SurvivesStrip, NotSeparator, InSlugWord);
  }

  function Slugify(text: string): (r: string)
    ensures IsSlug(r)
    ensures Filter(r, NotHyphen) == Filter(Lower(text), InSlugWord)
    ensures r == TrimHyphens(CollapseFrom(Filter(Lower(text), SurvivesStrip), false))
  {
    SlugShape(text);
    SlugKeepsWords(text);
    CollapseIsCharByChar(Filter(Lower(text), SurvivesStrip));
    TrimHyphens(CollapseSeparators(Filter(Lower(text), SurvivesStrip)))
  }

  /** The three replacements leave a string in slug shape. */
  lemma SlugShape(text: string)
    ensures IsSlug(TrimHyphens(CollapseSeparators(Filter(Lower(text), SurvivesStrip))))
  {
    var stripped := Filter(Lower(text), SurvivesStrip);
    StrippedChars(text);
    var collapsed := CollapseSeparators(stripped);
    assert forall i :: 0 <= i < |collapsed| ==> IsSlugChar(collapsed[i]);
    TrimmedIsSlug(collapsed);
  }

  /** After lower-casing and stripping, every character that is not a separator is a small
      letter or a digit. */
  lemma StrippedChars(text: string)
    ensures forall c :: c in Filter(Lower(text), SurvivesStrip) ==> IsSeparator(c) || IsLowerLetter(c) || IsDigit(c)
  {
    var lowered := Lower(text);
    forall c | c in Filter(lowered, SurvivesStrip)
      ensures IsSeparator(c) || IsLowerLetter(c) || IsDigit(c)
    {
      assert c in lowered && SurvivesStrip(c);
      var i :| 0 <= i < |lowered| && lowered[i] == c;
      assert !IsUpper(c);
    }
  }

  /** A slice of a string of slug characters without `--` is again one. */
  lemma SliceKeepsSlugChars(s: string, i: nat, j: nat)
    requires i <= j <= |s|
    requires forall k :: 0 <= k < |s| ==> IsSlugChar(s[k])
    requires NoDoubleHyphen(s)
    ensures forall k :: 0 <= k < j - i ==> IsSlugChar(s[i..j][k])
    ensures NoDoubleHyphen(s[i..j])
  {
    forall k | 0 <= k < j - i - 1
      ensures !(s[i..j][k] == '-' && s[i..j][k + 1] == '-')
    {
      assert s[i..j][k] == s[i + k] && s[i..j][k + 1] == s[i + k + 1];
    }
  }

  /** Trimming the leading hyphens keeps slug characters and no `--`. */
  lemma TrimLeadingKeepsShape(s: string)
    requires forall i :: 0 <= i < |s| ==> IsSlugChar(s[i])
    requires NoDoubleHyphen(s)
    ensures forall i :: 0 <= i < |TrimLeadingHyphens(s)| ==> IsSlugChar(TrimLeadingHyphens(s)[i])
    ensures NoDoubleHyphen(TrimLeadingHyphens(s))
  {
    var lead := TrimLeadingHyphens(s);
    var k := |s| - |lead|;
    forall i | 0 <= i < |lead| ensures lead[i] == s[k + i] && IsSlugChar(lead[i]) {
    }
    forall i | 0 <= i < |lead| - 1 ensures !(lead[i] == '-' && lead[i + 1] == '-') {
      assert lead[i] == s[k + i] && lead[i + 1] == s[k + i + 1];
    }
  }

  /** Trimming the trailing hyphens keeps slug characters, no `--` and the first character. */
  lemma TrimTrailingKeepsShape(s: string)
    requires forall i :: 0 <= i < |s| ==> IsSlugChar(s[i])
    requires NoDoubleHyphen(s)
    ensures forall i :: 0 <= i < |TrimTrailingHyphens(s)| ==> IsSlugChar(TrimTrailingHyphens(s)[i])
    ensures NoDoubleHyphen(TrimTrailingHyphens(s))
    ensures TrimTrailingHyphens(s) != [] ==> TrimTrailingHyphens(s)[0] == s[0]
  {
    var r := TrimTrailingHyphens(s);
    SliceKeepsSlugChars(s, 0, |r|);
    assert r == s[0..|r|];
  }

  /** Trimming the hyphens off the ends of a hyphen-collapsed string leaves a slug. */
  lemma TrimmedIsSlug(s: string)
    requires forall i :: 0 <= i < |s| ==> IsSlugChar(s[i])
    requires NoDoubleHyphen(s)
    ensures IsSlug(TrimHyphens(s))
  {
    var lead := TrimLeadingHyphens(s);
    TrimLeadingKeepsShape(s);
    TrimTrailingKeepsShape(lead);
    assert TrimHyphens(s) == TrimTrailingHyphens(lead);
  }

  /** Among slug characters, the hyphen is the only separator. */
  lemma SlugCharSeparator(c: char)
    requires IsSlugChar(c)
    ensures IsSeparator(c) <==> c == '-'
    ensures SurvivesStrip(c) && LowerChar(c) == c
  {
  }

  /** On a string with no separators other than single hyphens, collapsing is the identity. */
  lemma {:induction false} CollapseSlugChars(s: string)
    requires forall i :: 0 <= i < |s| ==> IsSlugChar(s[i])
    requires NoDoubleHyphen(s)
    ensures CollapseSeparators(s) == s
    decreases |s|
  {
    if s != [] {
      SlugCharSeparator(s[0]);
      SliceKeepsSlugChars(s, 1, |s|);
      CollapseSlugChars(s[1..]);
      if s[0] == '-' {
        if |s| > 1 {
          SlugCharSeparator(s[1]);
          assert !IsSeparator(s[1..][0]);
        }
        assert SkipSeparators(s[1..]) == s[1..];
      }
      assert s == [s[0]] + s[1..];
    }
  }

  /** Lower-casing and stripping leave a string of slug characters as it is. */
  lemma SlugCharsSurviveStrip(s: string)
    requires forall i :: 0 <= i < |s| ==> IsSlugChar(s[i])
    ensures Filter(Lower(s), SurvivesStrip) == s
  {
    forall i | 0 <= i < |s| ensures Lower(s)[i] == s[i] && SurvivesStrip(s[i]) {
      SlugCharSeparator(s[i]);
    }
    assert Lower(s) == s;
  }

  /** A slug is its own slug. */
  lemma SlugIsFixedPoint(s: string)
    requires IsSlug(s)
    ensures Slugify(s) == s
  {
    SlugCharsSurviveStrip(s);
    CollapseSlugChars(s);
    assert TrimLeadingHyphens(s) == s;
    assert TrimTrailingHyphens(s) == s;
  }

  lemma SlugifyIdempotent(text: string)
    ensures Slugify(Slugify(text)) == Slugify(text)
  {
    SlugIsFixedPoint(Slugify(text));
  }

  // ------------------------------------------------------------------------ isValidEmail

  /** `[^\s@]`. */
  predicate EmailAtom(c: char) { !IsJsSpace(c) && c != '@' }

  predicate AllAtoms(s: string) { forall i :: 0 <= i < |s| ==> EmailAtom(s[i]) }

  /** `/^[^\s@]+@[^\s@]+\.[^\s@]+$/.test(email)`: the string splits as atoms, `@`, atoms,
      `.`, atoms, each run of atoms non-empty. */
  predicate IsValidEmail(email: string) {
    exists a, d :: 0 < a < d < |email| && Splits(email, a, d)
  }

  /** The match that puts the `@` at `a` and the `.` at `d`. */
  predicate Splits(email: string, a: int, d: int) {
    && 0 < a < |email| && a + 1 < d < |email| - 1
    && email[a] == '@' && email[d] == '.'
    && AllAtoms(email[..a]) && AllAtoms(email[a + 1..d]) && AllAtoms(email[d + 1..])
  }

  /** The same test, read as a description of the address: no whitespace, exactly one `@`,
      something before it, and a `.` after it that is neither the first nor the last character
      of the part after the `@`. */
  predicate WellFormedAddress(email: string) {
    && (forall i :: 0 <= i < |email| ==> !IsJsSpace(email[i]))
    && exists a :: 0 < a < |email| && email[a] == '@'
         && (forall i :: 0 <= i < |email| && email[i] == '@' ==> i == a)
         && (exists d :: a + 1 < d < |email| - 1 && email[d] == '.')
  }

  /** A character inside a run of atoms is neither blank nor `@`. */
  lemma AtomAt(email: string, lo: nat, hi: nat, i: nat)
    requires lo <= i < hi <= |email| && AllAtoms(email[lo..hi])
    ensures EmailAtom(email[i])
  {
    assert email[lo..hi][i - lo] == email[i];
  }

  /** A range of characters that are neither blank nor `@` is a run of atoms. */
  lemma AtomsBetween(email: string, lo: nat, hi: nat)
    requires lo <= hi <= |email|
    requires forall i :: lo <= i < hi ==> !IsJsSpace(email[i]) && email[i] != '@'
    ensures AllAtoms(email[lo..hi])
  {
    forall k | 0 <= k < hi - lo ensures EmailAtom(email[lo..hi][k]) {
      assert email[lo..hi][k] == email[lo + k];
    }
  }

  /** In a match, no character is blank and the only `@` is the one at `a`. */
  lemma SplitCharAt(email: string, a: int, d: int, i: nat)
    requires Splits(email, a, d) && i < |email|
    ensures !IsJsSpace(email[i]) && (email[i] == '@' ==> i == a)
  {
    if i < a {
      assert email[..a] == email[0..a];
      AtomAt(email, 0, a, i);
    } else if a < i < d {
      AtomAt(email, a + 1, d, i);
    } else if d < i {
      assert email[d + 1..] == email[d + 1..|email|];
      AtomAt(email, d + 1, |email|, i);
    }
  }

  lemma AcceptedIsWellFormed(email: string)
    requires IsValidEmail(email)
    ensures WellFormedAddress(email)
  {
    var a, d :| 0 < a < d < |email| && Splits(email, a, d);
    assert a + 1 < d < |email| - 1 && email[d] == '.';
    forall i | 0 <= i < |email|
      ensures !IsJsSpace(email[i]) && (email[i] == '@' ==> i == a)
    {
      SplitCharAt(email, a, d, i);
    }
  }

  lemma WellFormedIsAccepted(email: string)
    requires WellFormedAddress(email)
    ensures IsValidEmail(email)
  {
    var a :| 0 < a < |email| && email[a] == '@'
       && (forall i :: 0 <= i < |email| && email[i] == '@' ==> i == a)
       && (exists d :: a + 1 < d < |email| - 1 && email[d] == '.');
    var d :| a + 1 < d < |email| - 1 && email[d] == '.';
    AtomsBetween(email, 0, a);
    AtomsBetween(email, a + 1, d);
    AtomsBetween(email, d + 1, |email|);
    assert email[..a] == email[0..a] && email[d + 1..] == email[d + 1..|email|];
    assert Splits(email, a, d);
  }

  lemma EmailCharacterization(email: string)
    ensures IsValidEmail(email) <==> WellFormedAddress(email)
  {
    if IsValidEmail(email) {
      AcceptedIsWellFormed(email);
    }
    if WellFormedAddress(email) {
      WellFormedIsAccepted(email);
    }
  }
}
