# Catalogue query of the product listing view

This project models the query logic of the product catalogue view
`all_products` in `products/views.py`. The view reads three optional query-string
parameters. `sort` names the field to order by. `direction` reverses that order
when it is `desc`. `q` is a search term matched, ignoring case, against each
product's name and author. The view orders the products and then filters them.
It hands the page three things: the products, the echoed `search_term`, and a
`current_sorting` string of the form `{sort}_{direction}`. An empty `q` is
rejected with a message and a redirect to the unfiltered list.

The view is modelled as one pure function, `ProductViews.AllProducts`, over a
sequence of `Product` records and a map of parameters. Its result is either
`EmptySearch` (the message and the redirect) or `Listing` (the page context).
The two queryset calls are made eager:

- `order_by` is `QuerySet.OrderBy`, an insertion sort. It is proved to return
  a permutation of its input, sorted on the key.
- `filter` is `QuerySet.Filter`. It is proved to keep exactly the matching
  products, each as often as it occurs, in their original order.

Files:

- `wrappers.dfy`: `Option`, used for Python's `None`.
- `strings.dfy`: ASCII lower-casing, lexicographic text order, and a substring
  test proved against the definition "occurs at some offset".
- `fields.dfy`: products, column values, sort keys, and the order on values.
- `queryset.dfy`: `order_by` and `filter`.
- `views.dfy`: the view, its properties, worked cases, and the view as written.

Where the view's documented intent and its code differ, the model follows the code:

- `direction` is read only inside the `sort` branch (products/views.py:20, 36-37).
  A `direction` without a `sort` therefore gives `None_None`, not `None_desc`.
- Only the literal `desc` adds the minus sign (products/views.py:38). Any
  other value leaves the order to `sort` alone, but is still echoed in
  `current_sorting`.
- The `sort` value reaches `order_by` unchanged (products/views.py:28-29, 41),
  so Django's own syntax inside it is honoured. The model reads the order_by
  argument as Django does: `sort=-price` sorts descending on `price`, and
  `sort=-name` sorts descending on the raw, case-sensitive name.
- `order_by` promises no order among products with equal keys, so ties are
  not promised to keep their input order. The model proves only "sorted
  permutation".
- Only the exact empty string is rejected as a search term. A term made of
  blanks is searched for like any other.

## Model

| member | source | states |
|---|---|---|
| `Strings.Contains` | products/views.py:59 | The `contains` test is true exactly when the needle occurs at some offset of the text. |
| `QuerySet.MatchesMeaning` | products/views.py:59 | A product matches a query exactly when the lower-cased query occurs in the lower-cased name or in the lower-cased author. |
| `QuerySet.OrderBy` | products/views.py:41 | `order_by` returns a permutation of its input (same multiset) in which every product stands before each later one under the key and direction. |
| `QuerySet.SortedKeysUnique` | products/views.py:41 | Any two sorted arrangements of the same products have the same key sequence, so `order_by` leaves open only the order among equal keys. |
| `QuerySet.Filter` | products/views.py:59-60 | Each product occurs in the result as often as in the input when it matches the query, and not at all otherwise. |
| `QuerySet.FilterKeepsExactlyMatches` | products/views.py:59-60 | A product is kept if and only if it is in the input and matches. |
| `QuerySet.FilterIsSubsequence` | products/views.py:60 | The filtered sequence is a subsequence of its input: its elements appear at strictly increasing input positions. |
| `QuerySet.FilterKeepsSorted` | products/views.py:41-60 | Filtering a sorted sequence leaves it sorted, so sort-then-filter yields sorted output. |
| `ProductViews.Ordered` | products/views.py:20-41 | The sorting stage is a permutation of the products. Without `sort` it is the products unchanged. With `sort` it is ordered on the lower-cased name for `name`, and otherwise on the raw column `sort` names once any leading `-` is removed. It is descending when `sort` starts with `-` or `direction` is `desc`. |
| `ProductViews.NoParametersIsIdentity` | products/views.py:13-67 | With no parameters, the products come back unchanged and in order, `search_term` is None and `current_sorting` is `None_None`. |
| `ProductViews.NoSortNoSearchIsIdentity` | products/views.py:19-62 | With neither `sort` nor `q` (say, only `direction`), the result is the same identity listing with `None_None`. |
| `ProductViews.EmptySearchExactlyWhenQueryEmpty` | products/views.py:47-51 | The view fails with the empty-search error if and only if `q` is present and empty, whatever `sort` and `direction` say. |
| `ProductViews.ListingHoldsExactlyTheMatches` | products/views.py:47-60 | On success, a product is listed if and only if it was in the input and either there is no `q` or it matches `q`, with its multiplicity kept. |
| `ProductViews.ListingFollowsTheOrder` | products/views.py:41-60 | On success, the listed products are a subsequence of the sorted stage: searching drops products but never reorders them. |
| `ProductViews.ListingIsOrdered` | products/views.py:28-41 | With `sort`, the listing is ordered on lower(name) for `sort=name`, and otherwise on the raw field named by `sort` without its leading `-`. The order is non-increasing when `sort` starts with `-` or `direction` is `desc`, and non-decreasing otherwise. |
| `ProductViews.ListingOrderIsDetermined` | products/views.py:28-41 | With `sort` and no `q`, every arrangement of the products that is ordered on the sort value has the listing's sequence of sort values, position by position. |
| `ProductViews.ListingWithoutSortKeepsStoredOrder` | products/views.py:20-41 | Without `sort`, the listing is a subsequence of the stored order. Without `q` as well, it is the stored sequence itself. |
| `ProductViews.OtherDirectionIsIgnored` | products/views.py:36-62 | A `direction` other than `desc` adds no minus sign. The order is the one `sort` alone gives: ascending, unless `sort` starts with `-`. Yet `current_sorting` is `sort` + `_` + that direction, verbatim. |
| `ProductViews.CurrentSortingFormat` | products/views.py:16-62 | `current_sorting` is `None_None` without `sort`. With `sort` it is `sort_direction`, or `sort_None` when no `direction` is given. |
| `ProductViews.SearchTermEchoed` | products/views.py:15-66 | On success, `search_term` is `q` when given and None otherwise. It is never the empty string. |
| `ProductViews.SearchWithoutSort` | products/views.py:20-62 | Without `sort`, a non-empty `q` filters the stored order, echoes `q` and leaves `current_sorting` at `None_None`. |
| `ProductViews.NameSortIgnoresCaseExample` | products/views.py:30-34 | Sorting "Banana" and "apple" by name gives "apple" first, although raw code order puts "B" before "a". |
| `ProductViews.MinusSortDescendsExample` | products/views.py:28-41 | `?sort=-price` lists the product priced 2 before the one priced 1, because `order_by` reads the `-` as descending. |
| `ProductViews.SearchByAuthorExample` | products/views.py:59-60 | Searching "KENNEDY" keeps only the product whose author is Kennedy, though its name does not match. |
| `ProductViews.SearchByNameExample` | products/views.py:59-60 | Searching "book" keeps only the product named "Rust Book", though its author does not match. |
| `ProductViews.AsWrittenNameSortRaises` | products/views.py:34 | As written, every request with `sort=name` raises NameError. For the same request, the corrected view redirects exactly when `q` is empty, and otherwise lists the products ordered on their lower-cased names. |
| `ProductViews.AsWrittenAgreesElsewhere` | products/views.py:10-70 | When `sort` is not `name`, the view as written and the corrected view give the same result. |

## Left out

- `product_detail` (products/views.py:73-82): a primary-key lookup plus a page render. It is database and framework plumbing.
- Rendering, `messages.error`, `redirect` and `reverse`: the redirect is the `EmptySearch` outcome. No HTTP behaviour is modelled.
- Queryset laziness, `annotate` and `Q` objects: each becomes an eager sequence operation.
- A `sort` naming a column the model lacks: Django (3.1 and later) raises FieldError at the `order_by` call (products/views.py:41), before the empty-search check. The model reads such a column as NULL.
- `ProductViews.Ordered`: for `sort=-field` together with `direction=desc`, `order_by` receives `--field` and Django raises FieldError. The model does not raise. It promises only a permutation, so its ordering clause excludes this case.
- `ProductViews.ListingIsOrdered`: excludes the same `sort=-field` with `direction=desc` case, for the same reason.
- `ProductViews.ListingOrderIsDetermined`: requires that this case does not arise, for the same reason.
- `sort=?` asks the database for a random order. The model reads `?` as an absent column, so every key is NULL and only a permutation is promised.
- Where NULL sorts depends on the database backend. The model puts NULL first, then numbers, then text.
- Text order and case: database collation and Unicode case folding are not modelled. Text compares by character code, and lower-casing maps ASCII capitals only.
- Numeric columns hold integers. Decimal columns such as prices are not given their own type.
- `QuerySet.OrderBy`: the order of products with equal keys is not promised, because `order_by` promises none. The model's insertion sort fixes one order, but no property relies on it. `SortedKeysUnique` shows that the keys themselves are fixed.
- Repeated query-string keys: `request.GET[k]` gives the last value, and the model has one value per key.
- profiles/models.py: a declarative schema with no behaviour of its own. Length and null checks belong to Django forms and the database.
- Loading products from the database: the product sequence is a parameter.

## Findings

| source | as written | input that shows it | evidently intended | confidence | as-written member | corrected member |
|---|---|---|---|---|---|---|
| products/views.py:34 | `Lower('name')` is called, but `Lower` is never imported (imports at products/views.py:1-5), so the lookup raises NameError | `?sort=name` (with or without `direction` and `q`) | a case-insensitive sort on the product name | high; not executed | `ProductViews.AsWrittenNameSortRaises` | `ProductViews.ListingIsOrdered` |
