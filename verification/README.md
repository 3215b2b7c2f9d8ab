# ReactLunrFilter search logic in Dafny

A model of the filter/search logic of the `Filter` React component in
`src/Filter.tsx`. The component shows a table of client records with two
filter fields, one for the client name and one for the postcode. Each
keystroke (or blur) on a field goes to `handleSearch`. That handler either
clears the filter or builds a lunr query prefixed with one field's name. It then runs
the query, maps every hit back to a client record (`search`) and stores the
hits sorted by name. `renderTable` then shows either the filtered rows or
every client.

The model is a functional state machine:

- `Filter.State` is the component state. It holds the lunr index
  (`None` until mounted), the clients, and `filteredClients` (`None` for
  `null`). A row of the filtered list is `None` where a hit resolved to
  `undefined`.
- `Filter.HandleSearch`, `Filter.Search` and `Filter.DisplayedRows` are
  pure transition and view functions.
- The lunr index is an opaque oracle, `Lunr.SearchIndex`. It is a function
  from a query string to the ordered hit refs. It can also fail with lunr's
  `QueryParseError`. `handleSearch` does not catch that error, so the failure
  propagates and the state is not updated.
- `NameSort.SortByName` is lodash `sortBy(rows, "name")`. It is a stable
  sort. Names are compared with JavaScript's `<` (`Strings.Less`). An
  `undefined` row sorts after every named row, as lodash's
  `compareAscending` orders `undefined`.
- `Strings.Trim` is `String.prototype.trim`, which `search` applies to the
  query.
- `Clients.FindByAccount` is lodash `find(clients, { accountNum: ref })`.

In three places one might expect a different behaviour than the code has;
the model follows the code:

- A hit whose ref matches no client is kept as an `undefined` row. It is not
  dropped (`Filter.StaleHitIsKept`).
- An empty filtered list shows every client, the same as a cleared filter. It
  is not shown as a distinct "no matches" state
  (`Filter.EmptyFilterLooksUnfiltered`, `Filter.NoHitsShowsEveryClient`).
- A query that lunr cannot parse is not caught and degraded to an empty
  result. The error propagates.

## Model

| member | source | states |
|---|---|---|
| Filter.QueryFor | src/Filter.tsx:110-118 | the query built for a field is left unchanged by the `trim` that `search` applies to it |
| Filter.QueryForIsInjective | src/Filter.tsx:111-118 | two queries are equal exactly when they use the same field and the same typed text: the query string is injective in (field, text) |
| Filter.Search | src/Filter.tsx:127-132 | the trimmed query is passed to the index. A parse error propagates. Otherwise the result has one row per hit, in hit order, and each row is the first client with that account number, or undefined when no client has it |
| Filter.HandleSearch | src/Filter.tsx:97-125 | no event leaves the state unchanged. No index or a falsy value sets `filteredClients` to null. Otherwise the filtered list has one row per hit, is sorted by name and is a permutation of `search`'s output, or lunr's error propagates. The index and clients never change |
| Filter.DisplayedRows | src/Filter.tsx:136-139 | the table is empty only when there is neither a filtered row nor a client. Every row shown is a filtered row or a store client, and an undefined row can only come from the filtered list. A non-empty filtered list is shown as it is |
| Filter.EmptyFilterLooksUnfiltered | src/Filter.tsx:138-139 | an empty filtered list displays exactly as a null one, namely every client |
| Filter.KeystrokeBeforeMountResets | src/Filter.tsx:34-40 | the initial state has no index, no clients and an empty filtered list. Any keystroke then takes the reset branch, and nothing is displayed before or after |
| Filter.NoHitsShowsEveryClient | src/Filter.tsx:120-124 | a query with no hits stores an empty filtered list. The display is then every client, the same as after clearing the field |
| Filter.HitsAreDisplayed | src/Filter.tsx:120-139 | when lunr returns hits, the display is the resolved hits sorted by name, one row per hit |
| Filter.StaleHitIsKept | src/Filter.tsx:128-131 | a hit whose ref no client carries appears as an undefined row in the filtered list and on display |
| Filter.RowsComeFromStore | src/Filter.tsx:127-132 | every defined row after a search is a store client whose account number was among the hits |
| Filter.ConsistentIndexResolvesEveryHit | src/Filter.tsx:127-132 | when every hit ref belongs to some client, no row is undefined |
| Filter.EqualNamesKeepHitOrder | src/Filter.tsx:120 | among rows with the same name, the filtered list keeps lunr's hit order |
| Clients.FirstAccountIndex | src/Filter.tsx:129 | returns the position of the first client with the ref as its account number, or the length of the list when none has it |
| Clients.FindByAccount | src/Filter.tsx:129 | the result is the first client carrying the account number, and it is defined exactly when some client carries it |
| NameSort.Insert | src/Filter.tsx:120 | inserting a row into an ordered list keeps the list ordered and adds exactly that row |
| NameSort.SortByName | src/Filter.tsx:120 | the result is a permutation of the input and is sorted ascending by name, with undefined rows last |
| NameSort.SortByNameIsStable | src/Filter.tsx:120 | for every name, the rows with that name keep their relative order, as lodash `sortBy` promises |
| NameSort.OrderedIsSorted | src/Filter.tsx:120 | if each row is in order with the next one, then every row is in order with every later row |
| Strings.Trim | src/Filter.tsx:128 | `trim` returns an infix surrounded only by whitespace. The infix neither starts nor ends with whitespace. A string that does not start or end with whitespace is returned unchanged |
| Strings.TrimStart | src/Filter.tsx:128 | removes exactly the longest whitespace prefix |
| Strings.TrimEnd | src/Filter.tsx:128 | removes exactly the longest whitespace suffix |
| Strings.LessIsLexLess | src/Filter.tsx:120 | the recursive string `<` agrees with the prefix-or-first-difference definition of JavaScript string comparison |
| Strings.LessIrreflexive | src/Filter.tsx:120 | no name sorts before itself |
| Strings.LessTransitive | src/Filter.tsx:120 | the string order used by the name sort is transitive |
| Strings.LessTotal | src/Filter.tsx:120 | of two different names, one always sorts before the other |

## Left out

- `createFakeData` (src/Filter.tsx:43-64) uses faker, `Math.random` and `Date`. The clients are therefore an input of the model.
- `createSearchIndex` (src/Filter.tsx:66-82) and everything inside lunr are left out: tokenisation, wildcard matching, the `boost: 10` relevance ranking and query parsing. The index is an opaque function from a query to hit refs or a parse error, so which documents match is lunr's business. The model only proves that the query string is injective in (field, typed text).
- `componentDidMount` (src/Filter.tsx:84-95) and React's batched, asynchronous `setState` are left out. Each handler call is one atomic transition, and a mounted state is any `State` whose index is present.
- JSX, Material-UI and styles (src/Filter.tsx:14-23, 141-197) are presentation. So is the `TypeError` that rendering an `undefined` row's `client.name` would raise.
- src/Filter.tsx:136 and 138 both declare `const clients`, which does not compile. Only the intended selection expression is modelled.
- Field scoping is not guaranteed. The typed text goes into the query unescaped, and in lunr's query syntax a space or hyphen starts a new clause, and `field:` names another field. A clause without a field searches every field. So typing "John Smith" into the name filter (src/Filter.tsx:113) also searches for `Smith*` in dob, postcode and accountNum. Query parsing belongs to lunr and is not modelled.
- An event without a `target`, which would throw on destructuring, is not modelled. An event carries only its value.
- Strings.Less: compares characters by Unicode scalar value. JavaScript compares UTF-16 code units, which differs only when comparing a character above U+FFFF against one in U+E000..U+FFFF.
