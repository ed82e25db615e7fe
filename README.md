# x402wrap link store, payment verifier and request validation — a Dafny model

x402wrap puts an HTTP API behind a short link that asks for a USDC payment on
Solana before each call. This project models the bookkeeping and decision
logic around that gateway:

- **Link store and request ledger** (`lib/db-sqlite.ts`, `lib/db-postgres.ts`).
  The `links` and `requests` tables are fields of the class `Ledger.LinkDb`:
  a map from link id to `Link` row and a sequence of `RequestLog` rows. The
  clock is the parameter `now`. `CreateLink` and `LogRequest` are methods
  that change the tables. `GetLink` is a keyed lookup. The two backends'
  `getLinkStats` are functions over the tables. They are built from the
  filter, sort, limit and sum functions of module `Ledger`.
  The class invariant `Valid()` says that each link's `total_requests` is the
  number of its request rows and its `total_revenue` is the sum of their
  amounts. Every write preserves it.
- **Payment verification** (`lib/solana.ts`). `Solana.VerifyPayment` is a
  total function of the two payment headers and an oracle for the RPC
  lookup. `Solana.GeneratePaymentRequest` builds the payment request record.
- **Link-creation request** (`app/api/create/route.ts`). `CreateRoute.Validate`
  is the ordered guard chain. `CreateRoute.PostCreate` runs it and then calls
  the store.
- **Waitlist sign-up** (`app/api/waitlist/route.ts`). `EmailSyntax` restates
  the email regex as a string predicate. It proves a character-level checker
  equivalent to it. `WaitlistRoute.PostWaitlist` is the handler.

The model follows the code, not the intended design. Three points matter:

- The code adds `amount` to `total_revenue` on every logged request, whether
  it succeeded or not.
- The verifier never compares the transaction's recipient or amount with the
  link.
- Nothing prevents a signature from being replayed.

The model keeps all three behaviours and proves none of the missing checks.

The SQLite and Postgres backends write the tables the same way. So one class
models both:

- Postgres `createLink` (lib/db-postgres.ts:61-83) inserts the counters as
  explicit zeros. SQLite gets the same zeros from column defaults.
- Postgres `getLink` (lib/db-postgres.ts:85-91) uses `LIMIT 1` on the primary
  key.
- Postgres `logRequest` (lib/db-postgres.ts:93-113) runs the same INSERT and
  UPDATE as SQLite.

The model captures one difference between them: the window revenue of
`getLinkStats`. SQLite's `SUM` over no rows is NULL. Postgres coalesces it to 0.
`BackendParity.StatsAgreeExceptEmptyRevenue` states this difference. The
backends differ in other ways, listed under "## Left out": REAL precision,
BIGINT columns returned as strings, SERIAL gaps and 32-bit limits. They may
also order equal timestamps differently in the recent page.

Oracles and parameters:

- `now` stands for the clock (`Date.now()`).
- `ledger: TxQuery -> Lookup` stands for `connection.getTransaction`.
- `isValidUrl` and `isValidWallet` stand for the WHATWG URL check and
  `isValidSolanaAddress`.
- `newId` stands for `generateLinkId` (nanoid).
- `randomText` stands for `Math.random().toString(36)`.
- `addToWaitlist` stands for the waitlist store.

## Model

| member | source | states |
|---|---|---|
| `Ledger.LinkDb.constructor` | lib/db-sqlite.ts:9-32 | A new database has empty `links` and `requests` tables, and the invariant holds. |
| `Ledger.LinkDb.CreateLink` | lib/db-sqlite.ts:34-57 | A fresh id gets a row with exactly the given fields, `created_at = now` and both counters 0. That row is returned, and `GetLink(id)` then yields it. A taken id fails on the primary key and changes nothing. The counter invariant holds afterwards. |
| `Ledger.LinkDb.GetLink` | lib/db-sqlite.ts:59-62 | The result is present exactly when the id is a key. It is then the row under that key, and under the invariant that row's own id is the one asked for. |
| `Ledger.LinkDb.LogRequest` | lib/db-sqlite.ts:64-85 | On a known link, exactly one row is appended: the next key, the link id, the payer or null, the amount, `timestamp = now`, and success as 1/0. That link's `total_requests` rises by 1 and `total_revenue` by `amount`, whatever the success flag. No other row or field changes. An unknown link fails on the foreign key and changes nothing. |
| `Ledger.Bumped` | lib/db-sqlite.ts:77-84 | The UPDATE adds 1 to `total_requests` and `amount` to `total_revenue`. It leaves id, URL, price, wallet and creation time as they were. |
| `Ledger.InsertLinkKeepsCounters` | lib/db-sqlite.ts:40-46 | Inserting a zero-counter link that no request row refers to keeps every link's counters equal to its ledger count and sum. |
| `Ledger.LogRowKeepsCounters` | lib/db-sqlite.ts:70-84 | Appending one row and bumping its own link by 1 and by the row's amount keeps every link's counters equal to its ledger count and sum. |
| `Ledger.LogRowKeepsRowsWellFormed` | lib/db-sqlite.ts:20-28 | The appended row keeps every row pointing at an existing link, with increasing keys below the next key and a 1/0 success flag. |
| `Ledger.LogKeepsTablesValid` | lib/db-sqlite.ts:64-85 | logRequest on an existing link preserves the whole table invariant. |
| `Ledger.RowsOf` | lib/db-sqlite.ts:91-96 | `WHERE link_id = ?` returns only rows of that link, each of them a row of the table, and never more rows than the table has. |
| `Ledger.RowsOfSelects` | lib/db-sqlite.ts:91-96 | `WHERE link_id = ?` keeps every row of that link, as often as the table holds it, and drops every other row. |
| `Ledger.RowsOfAbsent` | lib/db-sqlite.ts:34-46 | A link id that no row refers to selects no rows, so a new link starts with an empty history. |
| `Ledger.After` | lib/db-sqlite.ts:98-105 | `timestamp > cutoff` returns only rows strictly newer than the cutoff, each a row of the input. |
| `Ledger.AfterSelects` | lib/db-sqlite.ts:98-105 | `timestamp > cutoff` keeps every strictly newer row, as often as it occurs, and drops every other row. |
| `Ledger.WindowRowsSelect` | lib/db-sqlite.ts:98-105 | The 24-hour window holds exactly the link's rows stamped strictly after `now - 86400000`, each as often as the table holds it. |
| `Ledger.InsertNewestFirst` | lib/db-sqlite.ts:91-96 | Inserting into newest-first rows keeps them newest first. The result is the old rows plus the new one, as a multiset. |
| `Ledger.SortNewestFirst` | lib/db-sqlite.ts:91-96 | `ORDER BY timestamp DESC` gives timestamps that never increase. The result is a permutation of its input. |
| `Ledger.RecentPage` | lib/db-sqlite.ts:91-96 | One concrete result of `ORDER BY timestamp DESC LIMIT 100`. It satisfies `IsRecentPage`. |
| `Ledger.RecentPageIsRecent` | lib/db-sqlite.ts:91-96 | The first min(100, n) rows of the sorted history satisfy four conditions. They are drawn from the history and are newest first. Their number is min(100, n). No omitted row is newer than an included one. |
| `Ledger.RecentPageRowsBelongToLink` | lib/db-sqlite.ts:91-96 | Every row of the recent page belongs to the requested link and is a row of the table. |
| `Ledger.ShortHistoryFullyListed` | lib/db-sqlite.ts:91-96 | A link with at most 100 rows has all of them on its recent page. |
| `SqliteBackend.GetLinkStats` | lib/db-sqlite.ts:87-112 | An unknown link gives null. A known link gives four things. (1) Its row. (2) A page satisfying the `LIMIT 100` newest-first contract over its rows. (3) A window count equal to the number of its rows in the window. (4) A revenue equal to their amount sum, and NULL exactly when the count is 0. |
| `PostgresBackend.GetLinkStats` | lib/db-postgres.ts:115-148 | An unknown link gives null. A known link gives its row, a page satisfying the `LIMIT 100` newest-first contract over its rows, and the window count. The revenue is always the amount sum, which is 0, never null, when no row falls in the window. |
| `BackendParity.StatsAgreeExceptEmptyRevenue` | lib/db-postgres.ts:124-147 | On the same tables and clock, both backends agree on presence, row and count. Each returns a page satisfying the `LIMIT 100` newest-first contract over the link's rows. The pages need not be equal, because each database may order equal timestamps differently at the cut. Their revenue agrees when the count is positive. At count 0, SQLite gives null and Postgres gives 0. |
| `BackendParity.WindowCountWithinTotal` | lib/db-sqlite.ts:77-105 | Under the invariant, the 24-hour count of either backend never exceeds the link's `total_requests`. |
| `Solana.VerifyPayment` | lib/solana.ts:32-88 | `verified` is false exactly when an error is present. A missing or empty signature header gives the "No payment proof provided…" error. Otherwise the one lookup at commitment `confirmed` decides the outcome: not found gives "Transaction not found or not confirmed", a throw gives "Invalid transaction signature", and found verifies. A verified result carries the header signature, the expected amount and the `x-payment-from` header or no payer. |
| `Solana.NoProofNoLookup` | lib/solana.ts:39-47 | Without a signature header the result is the same for every ledger: no lookup is made. |
| `Solana.OnlyConfirmedLookupMatters` | lib/solana.ts:50-62 | Two ledgers that agree on the confirmed-commitment lookup of the signature give the same result. |
| `Solana.OutcomeIgnoresPolicy` | lib/solana.ts:64-75 | Whether a payment verifies, and its error, are the same for any expected recipient and amount. |
| `Solana.GeneratePaymentRequest` | lib/solana.ts:93-99 | The request carries the given recipient and amount. Its reference is always present. It is the random base-36 text from the eighth character on, or empty when that text is shorter. |
| `CreateRoute.Validate` | app/api/create/route.ts:12-38 | The guard chain as a decision table. "Missing required fields" exactly when a field is falsy. "Invalid API URL" exactly when all are present and the URL fails. The price error exactly when the URL passes and the price is not a number in (0, 1000]. The wallet error exactly when only the wallet fails. Success exactly when all pass, carrying the inputs with 0 < price <= 1000. |
| `CreateRoute.PriceEdges` | app/api/create/route.ts:12-31 | With a good URL and wallet, a price of 1000 is accepted. A price of 0 is reported as a missing field. A negative price, a price above 1000 or a numeric string is reported as a bad price. |
| `CreateRoute.UrlCheckedBeforePriceAndWallet` | app/api/create/route.ts:12-24 | Once all three fields are present, a failing URL alone decides the response. Any other present price and wallet, and any wallet check, give the same response. |
| `CreateRoute.PostCreate` | app/api/create/route.ts:6-59 | Four outcomes. (1) An unparseable or null body gives 500 "Failed to create link" with the store untouched. (2) A failing guard gives its 400 with the store untouched. (3) A taken id gives 500 with the store untouched. (4) Otherwise exactly one link row with zero counters is added and the response echoes its id, the URL, its price and its wallet. |
| `EmailSyntax.FirstAt` | app/api/waitlist/route.ts:13 | Finds the first '@', or says there is none. |
| `EmailSyntax.AllPlain` | app/api/waitlist/route.ts:13 | True exactly when every character is in `[^\s@]`. |
| `EmailSyntax.HasDot` | app/api/waitlist/route.ts:13 | True exactly when some character is '.'. |
| `EmailSyntax.CheckerMatchesPattern` | app/api/waitlist/route.ts:13-14 | The character-level checker accepts exactly the strings `/^[^\s@]+@[^\s@]+\.[^\s@]+$/` matches. |
| `EmailSyntax.AcceptedMatches` | app/api/waitlist/route.ts:13-14 | Every string the checker accepts splits as local@domain.tld, with three non-empty runs free of whitespace and '@'. |
| `EmailSyntax.MatchAccepted` | app/api/waitlist/route.ts:13-14 | Every such split string is accepted by the checker. |
| `EmailSyntax.AcceptedEmailShape` | app/api/waitlist/route.ts:13 | An accepted address has no whitespace and exactly one '@', and it does not start with '@'. |
| `WaitlistRoute.PostWaitlist` | app/api/waitlist/route.ts:4-28 | An unparseable or null body gives 500. A falsy email gives 400 "Email is required". A value the regex rejects gives 400 "Invalid email address". For an email that passes, a throwing `addToWaitlist` gives 500 "Internal server error". Otherwise the response echoes that call's `success` and `message`. A join response exists only for a string email matching the pattern. |
| `WaitlistRoute.RejectedEmailNeverJoins` | app/api/waitlist/route.ts:8-18 | For a missing or rejected email, the response is 400 and the same whatever `addToWaitlist` would do: it is not called. |

## Left out

- The payment gateway handler itself, `app/[id]/route.ts`, is not part of this model. It covers the 402 challenge, the forwarding, header stripping and the gateway's own `logRequest` call. This model covers the store, verifier and validation around that handler.
- Schema management: `initializeDatabase` (lib/db-postgres.ts:23-59) and `app/api/init-db/route.ts` are DDL only. The constructor models a database whose tables were just created.
- Backend selection in `lib/db.ts` is a dynamic import chosen by the environment. It is modelled as two backends over one store class.
- `addToWaitlist` is an oracle, and the marketplace-stats route (`getMarketplaceStats`) is left out. The waitlist route imports `addToWaitlist` from `lib/db.ts`, which does not export it. As written, the call therefore throws a TypeError, and every valid email gets a 500. The oracle's `None` case covers that outcome.
- Concurrency: `logRequest` issues its INSERT and UPDATE as two statements with no transaction. The model runs one call at a time and claims nothing about lost updates.
- Floating point: `price` and `amount` are REAL columns (single precision in Postgres) and JavaScript doubles. The model uses exact reals and says nothing about rounding.
- The Postgres driver returns BIGINT columns (`created_at`, `timestamp`) as decimal strings. The model keeps them as integers.
- Request ids come from AUTOINCREMENT or SERIAL. They are modelled as consecutive, although SERIAL can skip values after a failed insert.
- `Ledger.LinkDb.LogRequest`: assumes foreign keys are enforced. Postgres always enforces them, and better-sqlite3 builds SQLite with them on by default. Connection and disk failures are not modelled.
- `Ledger.LinkDb.LogRequest`: Postgres stores `total_requests` as INTEGER and the request key as SERIAL, both 32-bit (lib/db-postgres.ts:32, 39). The model uses unbounded counters. It therefore does not capture two failures. At `total_requests` = 2147483647, the UPDATE fails after the INSERT has already stored the row. Once the SERIAL sequence is exhausted, every INSERT fails.
- `Ledger.LinkDb.CreateLink`: the primary-key violation is its only failure. Other storage errors are not modelled.
- `Ledger.RecentPage`: SQL leaves the order among equal timestamps open. This function picks one order. `Ledger.IsRecentPage` states what every admissible result satisfies, and the backends' contracts use it.
- `CreateRoute.Validate`: a truthy non-string `apiUrl` or `wallet` is treated as invalid. JavaScript would hand an array to `new URL`, and a number or byte array to `new PublicKey`, which coerce them.
- `EmailSyntax.IsValidEmail`: JavaScript strings are UTF-16 code units, so a JSON body can carry a lone surrogate. A Dafny `char` cannot hold one, so such input is not representable. The result on every representable string is unaffected.
- `WaitlistRoute.PostWaitlist`: a truthy non-string email never matches. That is exact for numbers, booleans and objects, whose text has no '@'. An array, whose text is its joined elements, is not modelled.
- `Solana.VerifyPayment`: the outer `catch` (lib/solana.ts:82-87) is left out. Nothing before the inner `try` can throw.
- Oracles: the WHATWG URL parser behind `isValidUrl`, the ed25519 curve check behind `isValidSolanaAddress`, nanoid, `Math.random` and the Solana RPC connection are abstract.
- Display helpers are left out: `formatUSDC`, `formatNumber`, `formatDate`, `copyToClipboard` and `sanitizeUrl`. So are the UI pages and components.
