# Yogakshemam community directory: a Dafny model of the API routes and the gothram form

Yogakshemam is a Next.js application that keeps a bilingual (English and
Malayalam) directory of Namboodiri families. It has four lookup tables
(gothram, gramam, vedam, profession), illams (family houses) that refer to a
gothram, a gramam and a vedam, and namboodiris (members) that refer to a
gothram, an illam and a profession. This project models:

- the six collection routes `/api/{illam,gothram,gramam,vedam,namboodiri,profession}`:
  `GET` (session check, then the rows sorted by `nameEn`, with related rows
  where the route includes them) and `POST` (session check, the route's own
  validation, the create call, and the route's mapping of store errors to
  HTTP answers);
- `t(key)` of the language provider, the dotted-key translation lookup;
- `handleSubmit` of the gothram page, with `fetchGothrams`, which it calls
  after a successful save.

The store is modelled as follows:
- `Db.Tables` is a snapshot of the store, and `Db.Store` is a class holding
  the same tables as fields that the create methods update.
- A create either inserts a row under a fresh id or fails with a store
  error (`Db.Failure`, which has a code and a message).
- A reference to a missing row fails with `P2003`. Any other store refusal,
  such as a unique violation (`P2002`), is an input to the model: the `fault`
  parameter of every `POST`.
- The store also refuses argument values of the wrong type, for example a
  number where a name string is expected (`Db.StringArg`, `Db.IntArg`,
  `Db.OptionalStringArg`).

Each `POST` is modelled twice:
- a function `PostResult(session, request, fault, tables)` that gives the
  response and the tables afterwards;
- a method `Post` on a `Store`, proved to agree with that function.

The properties are lemmas about the `PostResult` functions. JSON request
bodies are maps from field names to `JsValue.Value`. JavaScript
truthiness, `String.prototype.trim` and `.length` (which counts UTF-16 code
units, two for a character outside the Basic Multilingual Plane) are
modelled as the language defines them.

## Model

| member | source | states |
|---|---|---|
| IllamRoute.List | src/app/api/illam/route.ts:14-22 | the listing holds every illam exactly once with its gothram, gramam and vedam, sorted ascending by `nameEn` |
| IllamRoute.ViewsOfRows | src/app/api/illam/route.ts:14-22 | every illam gives one view and different illams different views; there are as many views as illams |
| IllamRoute.Get | src/app/api/illam/route.ts:7-27 | without a session the answer is 401 `Unauthorized`; with one it is the sorted listing |
| IllamRoute.CollectMissing | src/app/api/illam/route.ts:40-46 | the pushes collect exactly the falsy required fields, in the checked order |
| IllamRoute.CheckRequest | src/app/api/illam/route.ts:40-107 | the checks before the insert return the same early response, or the same row to create, as `Check` |
| IllamRoute.Post | src/app/api/illam/route.ts:30-130 | the handler's response and the store's new state are those of `PostResult` |
| IllamRoute.PostWritesOnlyOnSuccess | src/app/api/illam/route.ts:30-130 | only a 200 answer changes the store, and then it adds exactly one illam under a fresh id; all other tables stay the same; without a session the answer is 401 |
| IllamRoute.MissingFieldsReported | src/app/api/illam/route.ts:40-51 | when a required field is falsy the answer is 400 `Missing required fields: …`; a field is listed if and only if it is falsy; fields are listed in the order nameEn, nameMl, gothramId, gramamId, vedamId |
| IllamRoute.NameLengthCap | src/app/api/illam/route.ts:53-59 | when all required fields are present, a name whose `.length` (UTF-16 code units, before trimming) exceeds 200 gives 400 with the length message, and only such a name does |
| IllamRoute.ReferencesCheckedInOrder | src/app/api/illam/route.ts:61-92 | the gothram, gramam and vedam ids are looked up in that order; the first missing one gives 400 `Invalid … selected` |
| IllamRoute.TrimOptionalFieldStored | src/app/api/illam/route.ts:101-106 | an optional field is stored trimmed, or as NULL when it is absent, null or blank after trimming |
| IllamRoute.CreatedIllamNormalized | src/app/api/illam/route.ts:94-107 | the created row has both names trimmed and at most 200 UTF-16 code units long, the parsed ids of rows that exist, and trimmed optional fields |
| IllamRoute.StoreFailuresMapped | src/app/api/illam/route.ts:116-129 | a store failure with code P2002 gives 409 `An illam with this name already exists`; any other gives 500 `Error creating illam` with the failure's message as details; the store is unchanged |
| IllamRoute.CreatedIllamListed | src/app/api/illam/route.ts:94-115 | after a successful create, the returned illam view appears in the next listing |
| GothramRoute.Get | src/app/api/gothram/route.ts:7-22 | 401 without a session; otherwise every gothram exactly once, sorted by `nameEn` |
| GothramRoute.CollectMissing | src/app/api/gothram/route.ts:35-38 | the pushes collect exactly the falsy names, English first |
| GothramRoute.Post | src/app/api/gothram/route.ts:25-75 | the handler's response and the store's new state are those of `PostResult` |
| GothramRoute.PostWritesOnlyOnSuccess | src/app/api/gothram/route.ts:25-75 | only a 200 answer changes the store, and then it adds exactly one gothram under a fresh id |
| GothramRoute.MissingFieldsReported | src/app/api/gothram/route.ts:35-43 | a falsy name gives 400 listing exactly the falsy names; both falsy gives `nameEn, nameMl` |
| GothramRoute.NameLengthCap | src/app/api/gothram/route.ts:45-51 | when both names are present, a name whose `.length` (UTF-16 code units, before trimming) exceeds 200 gives 400, and only such a name does |
| GothramRoute.AstralNameCountsTwice | src/app/api/gothram/route.ts:45-51 | a name of more than 100 characters that all lie outside the Basic Multilingual Plane is refused with the length message, since `.length` counts each of them twice |
| GothramRoute.CreatedGothramTrimmed | src/app/api/gothram/route.ts:53-58 | the stored names are the trims of the received strings, have no outer white space, and are at most 200 UTF-16 code units long |
| GothramRoute.StoreFailuresMapped | src/app/api/gothram/route.ts:61-73 | P2002 gives 409 `A gothram with this name already exists`; any other failure gives 500 with details; the store is unchanged |
| GothramRoute.CreatedGothramListed | src/app/api/gothram/route.ts:53-60 | the created gothram appears in the next listing |
| GothramRoute.BlankNameStoredEmpty | src/app/api/gothram/route.ts:35-58 | any non-empty name made only of white space, within the length cap, passes every check and is stored as the empty string, next to the trimmed other name |
| GramamRoute.Get | src/app/api/gramam/route.ts:7-22 | 401 without a session; otherwise every gramam exactly once, sorted by `nameEn` |
| GramamRoute.Post | src/app/api/gramam/route.ts:25-52 | the handler's response and the store's new state are those of `PostResult` |
| GramamRoute.PostWritesOnlyOnSuccess | src/app/api/gramam/route.ts:25-52 | only a 200 answer changes the store, and then it adds exactly one gramam under a fresh id |
| GramamRoute.MissingNamesNotListed | src/app/api/gramam/route.ts:34-39 | a falsy name gives 400 `Name in both languages is required`, without naming the field |
| GramamRoute.NamesStoredAsReceived | src/app/api/gramam/route.ts:41-46 | any two non-empty strings are stored as received: not trimmed and not length-checked |
| GramamRoute.EveryFailureIs500 | src/app/api/gramam/route.ts:48-51 | after the name check, every failure, P2002 included, is 500 `Error creating gramam` and leaves the store unchanged |
| VedamRoute.Get | src/app/api/vedam/route.ts:7-22 | 401 without a session; otherwise every vedam exactly once, sorted by `nameEn` |
| VedamRoute.Post | src/app/api/vedam/route.ts:25-52 | the handler's response and the store's new state are those of `PostResult` |
| VedamRoute.PostWritesOnlyOnSuccess | src/app/api/vedam/route.ts:25-52 | only a 200 answer changes the store, and then it adds exactly one vedam under a fresh id |
| VedamRoute.MissingNamesNotListed | src/app/api/vedam/route.ts:34-39 | a falsy name gives 400 `Name in both languages is required` |
| VedamRoute.NamesStoredAsReceived | src/app/api/vedam/route.ts:41-46 | any two non-empty strings are stored untrimmed and unchecked |
| VedamRoute.EveryFailureIs500 | src/app/api/vedam/route.ts:48-51 | after the name check, every failure is 500 `Error creating vedam`, with the store unchanged |
| NamboodiriRoute.List | src/app/api/namboodiri/route.ts:13-22 | every member exactly once with its gothram, illam and profession, sorted by `nameEn` |
| NamboodiriRoute.ViewsOfRows | src/app/api/namboodiri/route.ts:13-22 | every member gives one view and different members different views |
| NamboodiriRoute.Get | src/app/api/namboodiri/route.ts:6-29 | plain-text 401 `Unauthorized` without a session; otherwise the sorted listing |
| NamboodiriRoute.Post | src/app/api/namboodiri/route.ts:31-66 | the handler's response and the store's new state are those of `PostResult` |
| NamboodiriRoute.PostWritesOnlyOnSuccess | src/app/api/namboodiri/route.ts:31-66 | only a 200 answer changes the store, and then it adds exactly one member under a fresh id |
| NamboodiriRoute.CreatedNamboodiriAsReceived | src/app/api/namboodiri/route.ts:40-53 | names and ids are stored exactly as received; each optional field is stored as received when truthy and as NULL otherwise, untrimmed |
| NamboodiriRoute.EmptyNamesAccepted | src/app/api/namboodiri/route.ts:38-61 | no field is checked before the write: empty names with valid references are stored |
| NamboodiriRoute.DanglingReferenceIs500 | src/app/api/namboodiri/route.ts:40-65 | a reference to a missing row is refused only by the store, and the answer is the plain-text 500 |
| NamboodiriRoute.EveryFailureIs500 | src/app/api/namboodiri/route.ts:62-65 | with a session, every failure is plain-text 500 `Internal Server Error`, with the store unchanged |
| ProfessionRoute.Get | src/app/api/profession/route.ts:6-24 | plain-text 401 without a session; otherwise every profession exactly once, sorted by `nameEn` |
| ProfessionRoute.Post | src/app/api/profession/route.ts:26-47 | the handler's response and the store's new state are those of `PostResult` |
| ProfessionRoute.PostWritesOnlyOnSuccess | src/app/api/profession/route.ts:26-47 | only a 200 answer changes the store, and then it adds exactly one profession under a fresh id |
| ProfessionRoute.NamesStoredAsReceived | src/app/api/profession/route.ts:33-42 | any two strings, empty ones included, are stored exactly as received |
| ProfessionRoute.EveryFailureIs500 | src/app/api/profession/route.ts:43-46 | with a session, every failure is plain-text 500 `Internal Server Error`, with the store unchanged |
| Db.LookupListing | src/app/api/gothram/route.ts:14-17 | a lookup table's `findMany` ordered by `nameEn`: sorted, every row exactly once |
| Db.LookupInsertKeepsValid | src/app/api/gothram/route.ts:53-58 | a successful lookup create adds one row under a fresh id, changes no other table, and keeps the store consistent |
| Db.IllamInsertKeepsValid | src/app/api/illam/route.ts:94-113 | an illam create succeeds only when its references exist; it adds one row under a fresh id and keeps the store consistent |
| Db.NamboodiriInsertKeepsValid | src/app/api/namboodiri/route.ts:40-59 | a member create succeeds only when its references exist; it adds one row under a fresh id and keeps the store consistent |
| Db.Store.CreateLookup | src/app/api/gothram/route.ts:53-58 | the store's update equals `LookupInsert`/`WithLookup` on its snapshot |
| Db.Store.CreateIllam | src/app/api/illam/route.ts:94-113 | the store's update equals `IllamInsert`/`WithIllam` on its snapshot |
| Db.Store.CreateNamboodiri | src/app/api/namboodiri/route.ts:40-59 | the store's update equals `NamboodiriInsert`/`WithNamboodiri` on its snapshot |
| Db.Store.FindLookup | src/app/api/illam/route.ts:62-64 | `findUnique` by id: the row with that id, or none |
| Db.OptionalStringArg | src/app/api/namboodiri/route.ts:47-52 | `null` or `undefined` gives NULL, a string is kept, any other value is refused by the store |
| Listings.Listing | src/app/api/illam/route.ts:14-22 | `findMany` with `orderBy: nameEn asc`: sorted, same rows and count as the table, no row twice |
| JsValue.FalsyNamesExact | src/app/api/illam/route.ts:40-46 | the missing-field list holds exactly the names whose values are falsy, and is empty exactly when all are truthy |
| JsValue.FalsyNamesOrdered | src/app/api/illam/route.ts:41-46 | the missing-field list keeps the order in which the fields are checked |
| JsValue.ParseIdOfDecimal | src/app/api/illam/route.ts:63 | an id written in decimal parses back to the same id |
| JsString.TrimRemovesOnlyOuterWhiteSpace | src/app/api/gothram/route.ts:55-56 | `trim` removes only leading and trailing white space; it gives the empty string exactly for blank input, and is never longer than its input |
| JsString.Utf16LengthBounds | src/app/api/gothram/route.ts:46 | `.length` lies between the number of characters and twice that; it equals the character count exactly when no character is outside the Basic Multilingual Plane, and twice it exactly when all are |
| JsString.TrimUtf16Length | src/app/api/gothram/route.ts:46-56 | trimming never makes `.length` larger, so a name within the cap is still within it after trimming |
| JsString.TrimIdempotent | src/app/gothram/page.tsx:55-58 | trimming twice is the same as trimming once |
| JsString.SplitJoin | src/components/providers/language-provider.tsx:41 | `key.split('.')` is never empty, no segment contains a dot, and joining the segments gives the key back |
| JsString.JoinSplit | src/components/providers/language-provider.tsx:41 | splitting the dot-join of dot-free segments gives the segments back |
| Translation.Translate | src/components/providers/language-provider.tsx:40-50 | `t(key)` is the key itself or a truthy entry |
| Translation.WalkFindsEntry | src/components/providers/language-provider.tsx:44-47 | stopping at the first falsy step is only a shortcut: the walk finds a truthy entry exactly when there is one at the full path, and then the same one |
| Translation.TranslateIsEntryOrKey | src/components/providers/language-provider.tsx:40-50 | `t(key)` is the truthy entry at the key's dotted path, and otherwise the key |
| Translation.EmptyTranslationsEchoKey | src/components/providers/language-provider.tsx:17 | before a translation file loads, `t` returns every key unchanged |
| Translation.NestedKeyFound | src/components/providers/language-provider.tsx:40-50 | a non-empty string stored under dot-free segments is what `t` returns for the dotted key |
| Translation.EmptyEntryFallsBack | src/components/providers/language-provider.tsx:46-49 | whatever the tree, when the entry at the key's dotted path is the empty string, `t` returns the key |
| Translation.LanguageProvider.constructor | src/components/providers/language-provider.tsx:16-17 | the initial language is English and no translations are loaded |
| Translation.LanguageProvider.T | src/components/providers/language-provider.tsx:40-50 | the loop with `break` computes `Translate` of the current translations |
| GothramPage.MissingPromptNamesBlank | src/app/gothram/page.tsx:60-64 | the prompt names exactly the blank names, English first, joined by ` and ` |
| GothramPage.ValidateRefuses | src/app/gothram/page.tsx:55-71 | the form refuses exactly the names that are blank after trimming or whose trimmed `.length` (UTF-16 code units) exceeds 200; blank names are reported before length |
| GothramPage.SentRequestShape | src/app/gothram/page.tsx:55-94 | a request that is sent carries the trimmed, non-empty names of at most 200 UTF-16 code units. It POSTs to `/api/gothram` when creating. When editing, it PUTs to `/api/gothram/{id}`, and the id segment parses back to the edited row's id |
| GothramPage.SentCreateAccepted | src/app/gothram/page.tsx:55-93 | what the form posts passes every check of `POST /api/gothram`, and the store keeps the names exactly as sent |
| GothramPage.SubmitOutcome | src/app/gothram/page.tsx:51-103 | the previous error is cleared. A refused form sends nothing and shows its message. A failed save shows its error and keeps the editing state. A successful save stops editing and applies the refresh |
| GothramPage.SaveFallbackMessage | src/app/gothram/page.tsx:80-93 | a failed save with no `error` in the body shows the translated create or update message; with no translations loaded, it shows the key |
| GothramPage.GothramForm.constructor | src/app/gothram/page.tsx:18-22 | the first render: empty list, loading, no error, not editing |
| GothramPage.GothramForm.FetchGothrams | src/app/gothram/page.tsx:34-49 | a listed reply replaces the rows and clears the error. A refused or failed reply sets the error and keeps the rows. Loading ends either way |
| GothramPage.GothramForm.HandleSubmit | src/app/gothram/page.tsx:51-103 | the request sent and the new page state are those of `Submit` |

## Left out

- The `[id]` routes (single-row `GET`, `PUT`, `DELETE`). These are not part of this model.
- The other pages and forms are not part of this model. That includes `handleDelete`, the login page and the illam and namboodiri forms.
- Authentication is a boolean `session` parameter; next-auth itself is not modelled.
- `console.log`/`console.error`, `localStorage`, the dynamic `import` of the locale file, `useEffect` scheduling and rendering are not modelled. `LanguageProvider` only models its initial state and `t`.
- A `GET` whose database read throws (the 500 `Error fetching …` branches) is not modelled. The store's reads always succeed.
- A request body that is not JSON becomes `Request.Malformed`. The route then answers from its `catch` block.
- A store failure other than a dangling reference is the `fault` input. This covers unique violations, connection errors and anything else the database reports. The database schema is not part of this model.
- One id counter serves all tables: a new row gets the largest id issued so far plus one. In the database each table has its own sequence, so the ids themselves differ. Freshness, which is what the lemmas use, holds either way.
- `JsValue.Value` has no JSON arrays, no objects and no fractional numbers. So the model does not express:
  - an illam `gothramId` of `3.5`, which `parseInt` reads as 3 and which then creates a row;
  - a namboodiri `gothramId` of `3.5`, which the store refuses as not an `Int`, giving the plain-text 500;
  - an object name such as `{"length": 500}` posted to illam or gothram, which is truthy and longer than 200, giving the 400 length answer.
- Prisma's 32-bit `Int` range is not modelled: ids are unbounded integers.
- `JsValue.ParseId` handles only JSON numbers and strings of decimal digits. Other strings are treated as an id that matches no row. `parseInt`'s acceptance of leading white space, signs and trailing garbage is not modelled. Nor is what Prisma does with `NaN`.
- `Listings.SortedBy` orders by code point. The database's collation, and the order of rows with equal `nameEn`, are not modelled.
- The check-then-create sequence in `POST /api/illam` runs atomically here. Concurrent requests are not modelled.
- `Translation.Translate`: indexing into a string, which gives a character or `length`, is modelled as a missing entry. Inherited object properties such as `constructor` are modelled the same way. The namespace object's `default` key from the dynamic import is not modelled. A translation file holds only objects and strings.
- `GothramPage.GothramForm.HandleSubmit`: `formData.get` is taken to return a string, because both inputs are always present. React's batching of state updates is not modelled: updates apply in program order.
- Zod schemas and other shared types are not part of this model.

## Notes

- The routes for illam and gothram trim the names they store but do not
  check whether the trimmed name is empty. A name of only white space is
  truthy, so it passes the required-field check and is stored as the empty
  string (`GothramRoute.BlankNameStoredEmpty`). The model follows the code.
  The gothram form refuses such names before sending
  (`GothramPage.ValidateRefuses`).
- The gramam, vedam, namboodiri and profession routes neither trim nor
  length-check names. The namboodiri and profession routes do not check
  that names are present either.
