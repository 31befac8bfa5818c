# WikiApp backend: the search-analytics counters, in Dafny

The backend of WikiApp is a small proxy in front of the Wikipedia API. While it
forwards a search or a page read, it counts the request in a MongoDB collection
named `Analytics`. It also serves two views of that collection: a ranking by
count, and a top-five list for a token-gated admin dashboard. This project
models that collection and the decisions the handlers make around it. Requests
are handled one at a time.

- `Analytics` (analytics.dfy) holds the collection's document: an optional
  `keyword`, an optional `page` and a `count` that defaults to 1. It also holds
  the `findOne({ keyword })` lookup and the change a search (`SearchStep`) and a
  page read (`ReadStep`) make to the sequence of documents. The lemmas cover
  sequential searches and reads: one search of a term adds exactly 1 to that
  term's counter and leaves other terms alone, a read never touches a search
  counter, counters stay at 1 or more, and each keyword keeps at most one
  document.
- `Ranking` (ranking.dfy) holds the `order` parameter (lower-cased, then `asc`
  or `desc`), the sort by `count` and the top-five limit. The store's sort does
  not order documents with equal counts, so a result is specified as "ordered
  and a permutation" and never as one exact sequence. `DistinctCountsDetermineRanking`
  shows that ties are the only freedom the sort has.
- `AdminAuth` (admin_auth.dfy) holds the `authenticateAdmin` middleware and
  `/admin/login`. JWT signing and verification are function parameters.
- `Server` (server.dfy) holds the class `AnalyticsCollection`. Its field is the
  sequence of documents. `/search` and `/read/:slug` are methods that update it
  in place. `/most-searched/:order` and `/admin/dashboard` are functions that
  read it. The encyclopedia's answer is a parameter of each handler. The handler
  writes its counter before it looks at that answer, so the answer never undoes
  the write.
- `Scenarios` (scenarios.dfy) holds two client methods. They use only the
  handlers' contracts to state what a short request sequence answers.

The collection is created empty by the class constructor and changed only by
these handlers. The class invariant `Valid()` (positive counters, one document
per keyword) therefore holds for every collection the model can reach.

One document per subject holds for search keywords only. `/read/:slug` saves a
new document on every call, even when that page already has one
(Backend/server.js:74-77). The model follows the code here (`ReadNeverMerges`).
A page document has no keyword, so it never matches a search lookup for a string term.

## Model

| member | source | states |
|---|---|---|
| `Analytics.FindKeyword` | Backend/server.js:43 | The lookup returns the position of the first document whose keyword is the term. It returns nothing exactly when no document has that keyword. |
| `Analytics.SearchStep` | Backend/server.js:43-54 | If some document has the term as keyword, the first such document gains exactly 1, the length is unchanged and every other document is unchanged. Otherwise exactly one document `{keyword: term, count: 1}` is appended after the unchanged documents. |
| `Analytics.ReadStep` | Backend/server.js:74-77 | A page read appends exactly one document `{page: slug, count: 1}` after the unchanged earlier documents, whatever the collection held. |
| `Analytics.SearchRecordsTerm` | Backend/server.js:43-54 | After a search the collection has a document for the term. It grows by one document only when the term was new. |
| `Analytics.SearchIncrementsCount` | Backend/server.js:43-53 | Each search of a term raises that term's counter by exactly 1, whether the term was present (from n to n+1) or new (from 0 to 1). |
| `Analytics.SearchLeavesOtherTerms` | Backend/server.js:43-54 | A search of one term leaves the counter of every other term unchanged. |
| `Analytics.ReadLeavesSearchCounts` | Backend/server.js:74-77 | A page read changes no search counter, because its new document has no keyword. |
| `Analytics.SearchKeepsPositive` | Backend/server.js:43-54 | If every count is at least 1 before a search, that holds afterwards too. New documents start at 1 and a search only increments. |
| `Analytics.ReadKeepsPositive` | Backend/server.js:74-77 | If every count is at least 1 before a page read, that holds afterwards too. The new page document starts at the default 1. |
| `Analytics.SearchKeepsUniqueKeywords` | Backend/server.js:43-54 | Find-or-increment keeps at most one document per keyword under sequential searches. |
| `Analytics.ReadKeepsUniqueKeywords` | Backend/server.js:74-77 | A page read keeps keyword uniqueness, since its document has no keyword. |
| `Analytics.ReadNeverMerges` | Backend/server.js:74-77 | Two reads of the same page add two separate documents, each `{page: slug, count: 1}`, and leave the earlier documents unchanged. |
| `Ranking.SortByCount` | Backend/server.js:109-110 | The result holds exactly the documents of the collection (a permutation) and is ordered by count in the requested direction. |
| `Ranking.DistinctCountsDetermineRanking` | Backend/server.js:109-110 | When no two documents share a count, every descending ordering of them is the same sequence, so only ties are left open. |
| `Ranking.TopByCount` | Backend/server.js:158 | The result has min(5, n) documents, non-increasing in count, drawn from the collection. Every document left out has a count at most that of every returned one. |
| `Ranking.LowerCaseMatches` | Backend/server.js:101 | Lower-casing a string gives a lower-case word exactly when the string spells that word with each letter in either case. |
| `Ranking.ParseOrder` | Backend/server.js:101-106 | The order is accepted as ascending exactly when it spells `asc` in any case, and as descending exactly when it spells `desc` in any case. Every other string is rejected. |
| `AdminAuth.AuthenticateAdmin` | Backend/server.js:125-139 | An absent or empty token gives 401 "No token, authorization denied". A token that fails verification gives 400 "Token is not valid". Otherwise, and only then, the request proceeds with the admin decoded from the token. |
| `AdminAuth.LoginTokenPassesGate` | Backend/server.js:142-153 | If verification accepts what signing produced and signed tokens are never empty, the login token passes the gate as admin `{id: 1, username: "admin"}`. No credential is checked. |
| `AdminAuth.Login` | Backend/server.js:142-153 | The login token is what signing gives for the claims `{admin: {id: 1, username: "admin"}}`; no credential is checked. |
| `Server.AnalyticsCollection.constructor` | Backend/server.js:28 | The collection starts empty and satisfies the invariant. |
| `Server.AnalyticsCollection.Search` | Backend/server.js:38-67 | The collection becomes `SearchStep` of the old one, whatever the encyclopedia answers. The response relays the answer's body, or is 500 "Internal Server Error" with the write kept. The invariant is preserved. |
| `Server.AnalyticsCollection.Read` | Backend/server.js:70-97 | One page document with count 1 is appended, whatever the answer. The response is 404 "Page not found" when the answer carries an error, the title and HTML when it parsed, and 500 when the call failed. The invariant is preserved. |
| `Server.AnalyticsCollection.MostSearched` | Backend/server.js:99-118 | An order that is not `asc`/`desc` in some case gives 400 with a fixed message, independent of the collection. A valid order gives every document, as a permutation, ordered by count in that direction. |
| `Server.AnalyticsCollection.Dashboard` | Backend/server.js:156-164 | A list is returned exactly when a non-empty token is present and verifies. A missing token gives 401 and a failed verification gives 400. The list is a top-5 by descending count in the sense of `TopByCount`. |
| `Scenarios.SearchThenRank` | Backend/server.js:38-113 | Searching "cat" twice and "dog" once on an empty collection, then asking for order `DESC`, gives `[{cat, 2}, {dog, 1}]`. |
| `Scenarios.MissingPageIsCounted` | Backend/server.js:70-164 | Reading a missing page answers 404, yet an admin logged in with a fresh token sees that page's document, at count 1, on the dashboard. |

## Left out

- Express, cors and JSON middleware, `app.listen`, and the MongoDB connection with its event logging (Backend/server.js:1-17, 30-36, 167-169): process and I/O plumbing.
- Failures of the store itself are not modelled. The collection is always reachable, so the 500 answers that `catch` gives when `findOne`, `save` or `find` throw never happen in the model. Only a failed encyclopedia call produces 500. These are exceptions of the database driver.
- The Wikipedia requests (Backend/server.js:58-62, 79-92) are a network client. Each is an abstract answer: a search body or a failure, and for a page the parsed title and HTML, a body with an `error` field, or a failure. A page body that has neither `error` nor `parse` throws a TypeError in the source, which ends in the same 500 as a failure. The unescaped interpolation of the term and slug into the URL is not modelled.
- `Server.AnalyticsCollection.Search`: the term is a string. A missing `term` query parameter (undefined), a repeated one (an array) and an object-valued one (bracket syntax such as `term[$ne]=x`, which the default query parser turns into the filter `{ keyword: { $ne: "x" } }`) are not modelled. Such filters, unlike a string term, can match a document without a keyword, such as a page document, and the handler would then increment that document's count. What the driver does with these filter values is outside this code.
- JWT signing and verification, the secret, and the one-hour expiry (Backend/server.js:122, 133, 142-153) are cryptographic calls. `verify` and `sign` are function parameters, and an expired token is one that `verify` rejects. The error thrown from the signing callback is not modelled.
- `Ranking.ParseOrder`: lower-cases ASCII letters only. The full Unicode case mapping of `toLowerCase` is not modelled.
- `count` is an unbounded integer. JavaScript numbers lose precision above 2^53, which no sequence of requests here reaches in practice.
- The response bodies are reduced to their status and message. The difference between `send` (plain text, in `/search`) and `json({ error })` / `json({ msg })` is not kept.
- Timestamps (`Date.now`) and `console.log` output have no effect on behaviour.
- The race between `findOne` and `save` under concurrent requests is left out. Handlers run one at a time.
- The React frontend (frontend/src) is user interface, routing, chart rendering and HTTP fetching, with no logic to state.
