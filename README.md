# Salary reconciliation engine of the transparency proxy, in Dafny

This project models the core of a small Express proxy that queries a public
salary-transparency search service and reconciles the records it returns.

## What is modelled

### The reconciliation engine (`consultaHandler.js`)

- `processDataSolr` keeps the records whose federative entity contains the
  requested one, ignoring case. When no entity is requested it keeps every
  record. It writes the upstream record count on the request.
- `filterByUniqueName` groups the records by the key
  `TRIM(UPPER(name)) + "|" + obligated entity`:
  - The first record of a key supplies the group's name, id and entities.
  - Each group collects its distinct `(period, amount)` pairs.
- For each group, `filterByUniqueName` then computes three figures:
  - the current salary, from the latest period;
  - the maximum salary;
  - the cumulative salary.
- `filterByUniqueName` finally sorts the groups by maximum salary, stably and
  in descending order, and removes the sort key.
- `processDataSolr` lists federative entities. For each summary it takes the
  entity of the first filtered record with exactly the summary's name. It
  drops repeated and falsy values.
- `parsearFechaFin` and `parsearMonto` read the end date of a
  `"DD/MM/YYYY - DD/MM/YYYY"` period and an amount such as `"$5,469.30"`.

### The request-tracking middleware (`loggerMiddleware.js`)

- It parses the Cookie header with a `reduce`.
- It reuses the `sid` cookie, or issues a new session id.
- It picks the client address: the first usable of
  - the first `x-forwarded-for` hop,
  - `x-real-ip`,
  - the socket address,
  - `req.ip`,
  - `"unknown"`.
- It picks the user agent.
- Its local `parsearMonto` parses the amounts of the profile-view log.
- Its `finish` hook decides which log to write.

### The request helpers (`database.js`)

- `getClientIp` picks the client address.
- `getUserAgent` picks the user agent.

### How JavaScript is modelled

- **Values.** A `JsValue` is undefined, null, a boolean, a number or a string, with JavaScript truthiness. Numbers are exact reals, or NaN.
- **Date objects.** A `Date` object is its day number, computed as in ECMAScript's `MakeDay`. This includes month rollover and the 1900 offset for two-digit years. An out-of-range value becomes an Invalid Date, which is NaN.
- **String operations.** `trim`, `toUpperCase`, `toLowerCase`, `split`, `includes`, `replace(/[$,]/g, '')`, `parseInt` and `parseFloat` are written out over `seq<char>`.
- **Stateful parts.** These are imperative, as in the source:
  - The grouping `Map` is the class `Grouping.Combinations`. Its `Record` method is called once per record.
  - Both `Array.prototype.sort` calls are one in-place stable insertion sort, `StableSort.SortInPlace`, on an `array`.
  - The request is the class `Requests.Request`. `Consulta.ProcessDataSolr` and `Logger.Enter` write its fields.
  - The cookie `reduce` is the loop in `Logger.ParseCookies`.
- **Proof strategy.** Each method is proved equal to a specification function. The properties the source promises are lemmas about those functions.

### Where the code and its description disagree

The model follows the code in each of these cases:

- **The maximum salary is never `null`.** `sueldoMaxObj` always holds an object. When nothing is kept, the maximum has undefined fields and a sort key of 0 (`Aggregation.NothingKept`).
- **An unparsable amount or date is kept, not excluded.**
  - `parsearMonto("N/A")` is NaN, not `null`, so the pair stays in the kept set.
  - A date whose parts do not parse is an Invalid Date object, which is truthy, so that pair stays too.
  - Only a period without a second `" - "` piece, or a non-string amount, drops a pair (`Aggregation.KeepCondition`).
  - A kept NaN amount adds 0 to the cumulative salary.
  - A NaN amount at the head of the date order stays the maximum (`Aggregation.MaxNaNHead`).
- **The group key is a plain string join.**
  - A name containing `|` can make two different (name, entity) pairs share one group (`Grouping.KeyCollision`).
  - Without `|` in the names, the key identifies the pair (`Grouping.KeyInjective`).
- **The entity list can miss a summary's own entity.**
  - Each summary looks up its entity by name, and the lookup finds the first filtered record with that name.
  - Two records with one name under two obligated entities form two summaries. Both look up the first record, so the second summary's federative entity is missing from the list (`Consulta.SharedNameHidesEntity`, and `Consulta.SharedNameExample` with two concrete records).
  - The list is therefore not the set of federative entities of the emitted summaries.

## Model

| member | source | states |
|---|---|---|
| Grouping.NormalizedName | consultaHandler.js:112-113 | a record has no normalized name exactly when its name is falsy |
| Grouping.KeyOf | consultaHandler.js:112-119 | a record gets a key exactly when both its normalized name and its obligated entity are truthy |
| Grouping.Combinations.Record | consultaHandler.js:109-146 | one `forEach` step updates the map to the grouping fold's next state |
| Grouping.Combinations.Store | consultaHandler.js:120-143 | for a record with a key, the map gets a new group if the key is unseen, then the record's pair if it is new |
| Grouping.GroupRecords | consultaHandler.js:106-146 | the loop over the records leaves the map equal to the grouping of all records |
| Grouping.GroupBySpec | consultaHandler.js:107-146 | the map holds one group per distinct key in first-seen order, and each group holds its first record's identity and the first occurrences of its records' pairs |
| Grouping.GroupKeys | consultaHandler.js:117-128 | the keys have no duplicates, and a key is present exactly when some identifiable record has it |
| Grouping.GroupFirstSeen | consultaHandler.js:120-128 | a group's name, id, obligated entity and federative entity are those of the first record with its key |
| Grouping.GroupPairs | consultaHandler.js:133-143 | a group's pairs are its records' truthy (period, amount) pairs in first-seen order, with no duplicates and none missing |
| Grouping.SkippedRecord | consultaHandler.js:119 | a record without a truthy normalized name or obligated entity changes nothing |
| Grouping.PairlessRecord | consultaHandler.js:119-133 | a record without a period or amount still creates its group, and adds no pair |
| Grouping.NamedRecord | consultaHandler.js:113-119 | a record whose name starts with a non-space character and whose obligated entity is a non-empty string joins a group |
| Grouping.SameNameGroups | consultaHandler.js:121-122 | when every record has the same name, every group carries that name |
| Grouping.GroupCount | consultaHandler.js:107-146 | there are never more groups than records |
| Grouping.NormalizedIgnoresCase | consultaHandler.js:113 | names differing only in letter case normalize alike |
| Grouping.NormalizedIgnoresSpace | consultaHandler.js:113 | surrounding white space does not change the normalized name |
| Grouping.KeyInjective | consultaHandler.js:117 | for names without a bar character, equal keys mean equal normalized names and equal obligated entities, and conversely |
| Grouping.KeyCollision | consultaHandler.js:117 | names containing a bar character let records with different names and different entities share a key |
| JsStrings.TrimSpec | consultaHandler.js:113 | `trim` keeps a slice of its input with only white space cut at each end, and is empty exactly for blank input |
| JsStrings.UpperTrim | consultaHandler.js:113 | upper-casing commutes with trimming and is idempotent |
| JsStrings.IncludesSpec | consultaHandler.js:78 | `includes` holds exactly when the text occurs at some position |
| JsStrings.SplitJoin | consultaHandler.js:211 | `split` loses nothing: joining the pieces with the separator gives back the input |
| JsStrings.SplitPiecesLackSeparator | consultaHandler.js:211 | no piece of a `split` contains the separator |
| JsStrings.StripMoney | consultaHandler.js:227 | the stripped text contains no `$` and no `,` |
| JsStrings.StripMoneyKeeps | consultaHandler.js:227 | text without `$` or `,` passes through unchanged |
| JsNumbers.ParseIntDigits | consultaHandler.js:215 | `parseInt` of a digit string is its decimal value |
| JsNumbers.ParseFloatDecimal | consultaHandler.js:228 | `parseFloat` of `digits.digits` is its exact decimal value |
| Parsers.ParsearFechaFin | consultaHandler.js:208-219 | there is no date exactly for a non-string period, or one without a non-empty second `" - "` piece |
| Parsers.PeriodRoundTrip | consultaHandler.js:208-215 | a well-formed period label is read back as the day number of its end date |
| Parsers.ParsearMonto | consultaHandler.js:224-232 | the failure marker appears exactly for non-strings; a string is stripped of `$` and `,` and parsed as a float |
| Parsers.AmountRoundTrip | consultaHandler.js:224-232 | a formatted amount `$#,###.##` is read back as its value |
| Aggregation.KeepCondition | consultaHandler.js:152-160 | a pair is kept exactly when its period has a non-empty second piece and its amount is a string; the kept amount is the parsed one |
| Aggregation.KeptMembers | consultaHandler.js:152-160 | the kept entries are exactly the annotations of the pairs that have one |
| Aggregation.ProcessEntry | consultaHandler.js:149-194 | processing one group, which sorts its kept pairs in place, gives the group's summary and sort key |
| StableSort.SortInPlace | consultaHandler.js:163 | the in-place sort leaves the array equal to the stable descending sort of its old contents |
| StableSort.InsertAt | consultaHandler.js:163 | one insertion pass moves the element at position i left past the prefix elements whose keys it exceeds, stopping behind the first one it does not, and leaves the rest of the array untouched |
| StableSort.SortPermutes | consultaHandler.js:163 | sorting is a permutation |
| StableSort.SortStable | consultaHandler.js:197 | elements with equal keys keep their relative order |
| StableSort.SortSorted | consultaHandler.js:197 | with no NaN keys, the result is in non-increasing key order |
| StableSort.SortFirst | consultaHandler.js:163-166 | the first element of a maximal key comes first |
| Aggregation.CurrentNull | consultaHandler.js:166 | the current salary is `null` exactly when no pair is kept |
| Aggregation.CurrentIsLatest | consultaHandler.js:163-166 | the current salary is the amount of the kept pair with the latest end date, taking the first one on a tie |
| Aggregation.MaxFoldSpec | consultaHandler.js:169-171 | the `reduce` ends at its start or at a pair that beats its start, and is no smaller than any amount |
| Aggregation.MaxIsMax | consultaHandler.js:169-176 | with numeric amounts, the maximum is a kept pair at least as large as every other, strictly larger than those before it in date order |
| Aggregation.MaxNaNHead | consultaHandler.js:169-171 | a NaN amount in the latest pair is never replaced, and the sort key is NaN |
| Aggregation.NothingKept | consultaHandler.js:166-192 | with nothing kept: current is `null`, the maximum has undefined fields, its key is 0 and the cumulative is 0 |
| Aggregation.AcumuladoSorted | consultaHandler.js:179-181 | the sum does not depend on the order the sort leaves |
| Aggregation.CumulativeSalary | consultaHandler.js:179-181 | the cumulative salary is the sum of the kept amounts, NaN counting as 0 |
| Aggregation.SummaryFields | consultaHandler.js:183-193 | the summary carries the group's identity and its full unfiltered pair list |
| Consulta.FilterByEntidadSpec | consultaHandler.js:75-79 | with a truthy entity, a record is kept exactly when its non-empty entity contains it, ignoring case; otherwise all records are kept |
| Consulta.MatchMeans | consultaHandler.js:78 | a matching record has a non-empty entity in which the lower-cased filter occurs |
| Consulta.FilterByUniqueName | consultaHandler.js:106-203 | groups, processes, sorts in place and strips the key, giving the ranked summaries |
| Consulta.RankPermutes | consultaHandler.js:197-202 | the result is a permutation of the processed groups, one summary per group |
| Consulta.RankStable | consultaHandler.js:197 | groups with equal maxima keep their creation order |
| Consulta.RankSorted | consultaHandler.js:197 | when all kept amounts are numbers, the result is in non-increasing order of maximum salary |
| Consulta.FindByName | consultaHandler.js:88 | the result is the first record with exactly that name, and there is no result exactly when no record has it |
| Consulta.EntidadesSpec | consultaHandler.js:87-89 | the entity list has no duplicates and no falsy entries, and holds exactly the truthy entities the summaries map to |
| Consulta.SharedNameHidesEntity | consultaHandler.js:84-89 | two records with one name under different obligated entities give two summaries, yet every listed entity is the first record's, so the second record's entity is missing |
| Consulta.SharedNameExample | consultaHandler.js:84-89 | two "Ana" records under obligated entities "A" (Jalisco) and "B" (Colima) give two summaries, and "Colima" is not in the entity list |
| Consulta.TwoGroups | consultaHandler.js:117-121 | two records with one name under different obligated entities give two summaries |
| Consulta.SharedNameSummaries | consultaHandler.js:121-122 | when every record has the same name, so does every summary |
| Consulta.EntidadesFromRecords | consultaHandler.js:87-89 | every listed entity is the entity of some filtered record |
| Consulta.ProcessDataSolr | consultaHandler.js:68-101 | it records the upstream count on the request, leaves the other request fields alone, and answers with the filtered ranking and its entity list |
| Consulta.ResponseCount | consultaHandler.js:69-84 | the response never lists more professors than there are filtered records, nor more filtered records than upstream ones |
| Consulta.ListedEntitiesMatch | consultaHandler.js:76-89 | with an entity filter, every listed entity contains it, ignoring case |
| Database.SocketFallback | database.js:222 | the fallback is the socket address, else `req.ip`, else `"unknown"`, and is never empty |
| Database.GetUserAgent | database.js:228-230 | the header when it is non-empty, else `"unknown"` |
| Database.ClientIpPriority | database.js:208-223 | `x-forwarded-for` wins over `x-real-ip`, which wins over the socket address |
| Database.FirstForwardedShape | database.js:211-214 | the result from `x-forwarded-for` is a slice of it, with no comma and no white space at either end |
| Database.EmptyClientIp | database.js:210-214 | the address is `""` exactly when `x-forwarded-for` is present but its first hop is blank |
| Database.BlankFirstHop | database.js:210-214 | the header `,10.0.0.1` yields `""` even with `x-real-ip` and a socket address present |
| Logger.ParseCookies | loggerMiddleware.js:16-20 | the loop over the pieces builds the same object as the `reduce` |
| Logger.LastWithKey | loggerMiddleware.js:16-20 | the last piece carrying a given name, or none |
| Logger.CookieLookup | loggerMiddleware.js:16-20 | a name is present exactly when some piece carries it and it is not `__proto__`, and its value is that of the last such piece |
| Logger.HeaderLookup | loggerMiddleware.js:16-20 | the same lookup for a whole Cookie header |
| Logger.SingleCookie | loggerMiddleware.js:16-19 | a header without `;` holds one cookie |
| Logger.CookiePiece | loggerMiddleware.js:17 | a trimmed piece `k=v` gives name `k` and value `v` |
| Logger.CookiePieceCut | loggerMiddleware.js:17 | in a piece `k=v=...` the value stops at the second `=` |
| Logger.CookieWithoutValue | loggerMiddleware.js:17-18 | a piece without `=` gives an undefined value |
| Logger.ChooseSid | loggerMiddleware.js:22-32 | the visitor is new exactly when the `sid` cookie is falsy; a returning visitor keeps the cookie's non-empty value, a new one gets the new id |
| Logger.NoCookieHeader | loggerMiddleware.js:16-28 | without a Cookie header the cookie object is empty and the visitor is new |
| Logger.SidReused | loggerMiddleware.js:16-32 | the header `sid=v` with a non-empty `v` keeps `v` for a returning visitor |
| Logger.EmptySid | loggerMiddleware.js:22-28 | `sid=` counts as no sid |
| Logger.FirstPresent | loggerMiddleware.js:40-45 | the value of the first present, non-empty candidate, or the default when there is none |
| Logger.ClientIpOrder | loggerMiddleware.js:40-45 | the address is the first usable candidate in priority order, and is never empty |
| Logger.ClientIpVersusDatabase | loggerMiddleware.js:41 | the middleware and `getClientIp` differ exactly when `x-forwarded-for` is non-empty with a blank first hop |
| Logger.Enter | loggerMiddleware.js:15-51 | records the chosen sid, the client address and the user agent on the request, and reports whether the visitor is new |
| Logger.ParsearMontoLocal | loggerMiddleware.js:118-127 | a string becomes a number; any other value is returned unchanged |
| Logger.LocalMontoAgrees | loggerMiddleware.js:118-127 | agrees with the handler's `parsearMonto` on strings, and parsing twice is parsing once |
| Logger.LocalMontoRoundTrip | loggerMiddleware.js:118-123 | a formatted amount is read back as its value |
| Logger.FinishLogCases | loggerMiddleware.js:88-106 | a consulta is logged exactly for a POST to `/api/consulta` with a captured body, a profile view exactly for a POST to `/api/profesor-vista`; missing counts are 0 |
| Logger.ConsultaLogCounts | loggerMiddleware.js:88-92 | after `processDataSolr`, the consulta log carries the upstream count and the number of professors returned, and the second never exceeds the first |

## Findings

| source | as written | input that shows it | evidently intended | confidence | as-written member | corrected member |
|---|---|---|---|---|---|---|
| database.js:211-213 | a present `x-forwarded-for` whose first hop is blank returns `""` as the client address | `x-forwarded-for: ,10.0.0.1` with `x-real-ip` set | fall through to the next source, as loggerMiddleware.js:41 does, so the address is never empty | medium, not executed | Database.BlankFirstHop | Logger.ClientIpOrder |

`Database.EmptyClientIp` characterizes the cases in which `getClientIp`
returns `""`. `Logger.ClientIpVersusDatabase` shows that the two address
choices differ in exactly those cases. The address recorded on the request is
the middleware's (`Logger.Enter`).

## Left out

- **I/O and side effects:** the upstream `fetch`, the response headers and status, `JSON.parse`, console logging, the database inserts and `res.setHeader`.
- **Time and randomness:** `Date.now` and timestamps are not modelled, and the new session id is a parameter in place of `randomUUID()`.
- **Response capture:** the `res.json` patch and the asynchronous `finish` event are left out. The captured body is a value that `Logger.FinishLog` receives.
- **Passed-through fields:** the `sujetosObligados` pass-through and the status/content-type of `processDataSolr` are not modelled. They are copied, not computed.
- **The profile-view log:** its fields other than the dispatch decision are left out. The same holds for `handleProfesorVista`, `analyticsHandler.js` and `server.js`.
- **Number precision:** numbers are exact reals. IEEE-754 rounding, `Infinity`, and exponents in `parseFloat` are not modelled.
- **Case mapping:**
  - Upper-casing covers the ASCII and Latin-1 lower-case letters, with `ÿ` to `Ÿ` and `µ` to the Greek capital mu.
  - Lower-casing covers the ASCII and Latin-1 capitals and `Ÿ`.
  - Letters outside Latin-1 keep their case.
  - Length-changing mappings such as `ß` to `SS` are not modelled.
- **Dates:**
  - Dates are day numbers in UTC: the local time zone is not modelled.
  - `TimeClip` is applied at whole days, so the limit is up to 100 000 000 days rather than 8.64e15 ms.
- **Field types:** a record's name, obligated entity and federative entity, and the entity filter, are strings, `null` or undefined only. Other values behave as follows in the source, and the model has none of them:
  - A truthy non-string name, such as a number or `true`, makes `toUpperCase` throw. A falsy one, such as 0 or `false`, is skipped like a missing name.
  - A non-string obligated entity becomes text in the key's template literal, so the number 7 is grouped under `"7"`.
  - A non-string federative entity is copied into its group and the entity list. It makes `toLowerCase` throw only when an entity filter is given.
  - A truthy non-string entity filter makes `toLowerCase` throw.
- **Objects and arrays:** `JsValue` has no objects or arrays. For such values `===` compares references, so an object in the `periodoreporta` or `montoneto` field never matches a stored pair in the duplicate test (consultaHandler.js:134-137). Neither that nor an object or array `id` is modelled.
- **Upstream payload:** a `null` upstream payload is not modelled.
- **Sort order with NaN:** a NaN comparison result is modelled as "keep the order". The engine's actual order for inconsistent comparators is implementation-defined.
- **Logger.ParsearMontoLocal:** its `catch` branch is not modelled. It cannot be reached, because `replace` on a string does not throw.
- **Header types:** a header arriving as an array (duplicated headers) is not modelled. Each header is a string or absent.
