# Wedding guest backend — a Dafny model

This project models the core of the back end of a wedding site:

- the guest collection: its schema, its unique email index, and the queries the handlers run on it;
- the five guest handlers (create, list, get, update, delete);
- the chat assistant: it answers an organiser's question by calling a language model, with one optional round of tool calls against the guest collection;
- the `chat` route in front of the assistant;
- the `protect` middleware that checks bearer tokens;
- the two payment handlers.

Everything is a pure function of its inputs, except the assistant and the chat route. Both are methods, and the assistant's loop mirrors the source's tool loop.

The model uses these types and conventions:

- JavaScript values are `Js.Value`. An absent property is `Undefined`, so `null` and "missing" stay distinct.
- A stored document is a map from property `Key` to value.
- The collection is a sequence of `(id, document)` entries in insertion order. A query without a sort returns them in that order. This is a modelling choice: the store does not guarantee any natural order.
- Every write keeps the collection invariant `GuestStore.Inv`: ids are unique, emails are unique, and every document meets the schema and holds no `undefined`.

Some parts of the system are outside the model and enter as parameters:

- the request clock;
- the id the store generates;
- the language-model endpoint;
- the JSON parser of tool arguments;
- the token verifier;
- the payment provider's session call;
- how the server treats a list limit that is NaN or a fraction.

| file | module | models |
|---|---|---|
| `base.dfy` | `Base` | `Option`, `Result` |
| `js.dfy` | `Js` | JavaScript values, truthiness, `Number(...)` |
| `text.dfy` | `Text` | `startsWith`, `includes`, `split(" ")` |
| `guest_schema.dfy` | `GuestSchema` | the guest record and the collection's `$jsonSchema` validator |
| `guest_store.dfy` | `GuestStore` | the collection, its writes, queries, sort, limit and projection |
| `guest_controller.dfy` | `GuestController` | the guest CRUD handlers |
| `ai_tools.dfy` | `AiTools` | `buildMongoQuery`, the three tools, the dispatch of one tool call |
| `ai_chat.dfy` | `AiChat` | `chatWithAI` |
| `ai_controller.dfy` | `AiController` | the `chat` route |
| `auth_middleware.dfy` | `AuthMiddleware` | `protect` |
| `payment_controller.dfy` | `PaymentController` | `createCheckoutSession`, `createPaymentIntent` |

The source disagrees with its own integration tests in two places. The model follows the handlers in both.

- For the id `invalid-id`, `tests/integration/guestRoutes.test.ts` expects a 500. The handler answers 400 "ID invalide" before touching the store.
- After a delete, the same test file expects `data` to be an empty object. The handler answers with `data: { message: "Invité supprimé avec succès" }`.

## Model

| member | source | states |
|---|---|---|
| GuestSchema.ValidEmailIsPattern | projet-mariage-back/src/models/Guest.ts:36-40 | The executable email check (first `@`, last `.`) accepts exactly the strings that the email pattern matches from start to end. |
| GuestSchema.ValidEmailShape | projet-mariage-back/src/models/Guest.ts:38 | An accepted email has exactly one `@`, not in first position. Every character is from the pattern's classes. It has no line break. |
| GuestSchema.StoreEmailIsPattern | projet-mariage-back/src/models/Guest.ts:38 | The store's email check accepts exactly what the pattern matches when `$` may also match before a final line break: a valid address, or one followed by a single "\n". |
| GuestSchema.StoreEmailAgrees | projet-mariage-back/src/models/Guest.ts:38 | On a string without a line break, the store's check and the intended check agree. |
| GuestSchema.TrailingNewlineAccepted | projet-mariage-back/src/models/Guest.ts:38 | "a@b.co\n" passes the pattern as the store applies it, and so the store's check, yet it is not a valid email. |
| GuestSchema.ValidGuestShape | projet-mariage-back/src/models/Guest.ts:22-90 | The schema accepts a document iff: names and email are strings and the email passes the store's check; the tri-state answers are bool or null; the menu choices come from their enumerations or are null; a present guest count is an integer in [1, 10]; comments and dates have their types when present. |
| GuestSchema.FromDocToDoc | projet-mariage-back/src/models/Guest.ts:3-19 | Storing a guest record as a document and reading it back gives the same record. |
| GuestSchema.ToDocFromDoc | projet-mariage-back/src/models/Guest.ts:3-19 | A document that reads as a guest record agrees with that record's document on every record property. |
| GuestSchema.FieldsOfToDoc | projet-mariage-back/src/models/Guest.ts:3-19 | Every property of a record's document is the record's field. |
| GuestSchema.ToDocValid | projet-mariage-back/src/models/Guest.ts:22-90 | A complete guest record meets the schema iff its email passes the store's check and its guest count is in [1, 10]. |
| GuestStore.Lookup | projet-mariage-back/src/controllers/guestController.ts:86-93 | `findOne({_id})` returns only a document stored under that id, and returns nothing iff no entry has it. |
| GuestStore.Matching | projet-mariage-back/src/services/aiService.ts:117 | `find(q)` returns exactly the entries whose documents match the query, never more than the collection holds. |
| GuestStore.SortNewestFirst | projet-mariage-back/src/controllers/guestController.ts:56 | `sort({createdAt: -1})` returns a permutation of its input, newest first, with undated entries last. |
| GuestStore.InsertByAge | projet-mariage-back/src/controllers/guestController.ts:56 | Inserting into a newest-first sequence keeps it newest first and adds exactly the one entry. |
| GuestStore.Project | projet-mariage-back/src/services/aiService.ts:159-170 | A projection keeps the id and exactly the listed properties the document has, with their values. |
| GuestStore.Cursor | projet-mariage-back/src/services/aiService.ts:155-171 | A cursor yields only matching entries of the collection. It yields all of them when the limit is 0 or not reached, and exactly `limit` of them otherwise. Sorted, it is newest first and keeps entries no older than any it drops. Unsorted, it is a prefix of `find(q)`. |
| GuestStore.ExecuteKeepsNewest | projet-mariage-back/src/services/aiService.ts:155-171 | Each entry a sorted cursor returns is cut from a match no older than any match it leaves out. |
| GuestStore.ExecuteSound | projet-mariage-back/src/services/aiService.ts:155-171 | Every entry a cursor returns is a matching stored entry cut down to the projection. |
| GuestStore.ExecuteComplete | projet-mariage-back/src/services/aiService.ts:155-171 | With no limit, or one the matches do not reach, every matching entry is returned, projected. |
| GuestStore.ExecuteUnprojected | projet-mariage-back/src/services/aiService.ts:117 | Without a projection, entries come back whole, and a plain cursor is `find(q)`. |
| GuestStore.Delete | projet-mariage-back/src/controllers/guestController.ts:254-261 | `deleteOne({_id})` removes exactly the entries with that id. The count is 0 iff the id was unknown. |
| GuestStore.InsertKeepsInv | projet-mariage-back/src/controllers/guestController.ts:17 | An accepted insert appends the serialised document and keeps ids unique, emails unique and documents valid. |
| GuestStore.UpdateKeepsInv | projet-mariage-back/src/controllers/guestController.ts:165-168 | An accepted `$set` update keeps the collection invariant. |
| GuestStore.UpdateFieldsMerges | projet-mariage-back/src/controllers/guestController.ts:165-177 | `$set` on an existing id leaves the old document overwritten by the given properties. Every other entry keeps its place and content. "Modified" holds iff something changed. |
| GuestStore.DeleteKeepsUnique | projet-mariage-back/src/controllers/guestController.ts:254 | Deleting keeps ids and emails unique. |
| GuestStore.DeleteKeepsInv | projet-mariage-back/src/controllers/guestController.ts:254 | Deleting keeps the collection invariant. |
| GuestController.ValidationMessageAsWritten | projet-mariage-back/src/controllers/guestController.ts:27-34 | As the handlers build it, the validation message is the prefix followed by "[object Object]" when there is a rule report, and by the error message otherwise. |
| GuestController.ValidationReportLost | projet-mariage-back/src/controllers/guestController.ts:27-34 | Two validation failures with different rule reports get the same message as written, so the report never reaches the client. |
| GuestController.ValidationMessage | projet-mariage-back/src/controllers/guestController.ts:27-34 | The validation message starts with the fixed prefix and carries the rule report's text, or the error message when there is no report. |
| GuestController.ValidationMessagesAgree | projet-mariage-back/src/controllers/guestController.ts:27-34 | Without a rule report, the written and the corrected validation messages are the same. |
| GuestController.ValidationReportKept | projet-mariage-back/src/controllers/guestController.ts:27-34 | The corrected message tells any two different non-empty rule reports apart. |
| GuestController.WriteFailure | projet-mariage-back/src/controllers/guestController.ts:23-47 | Every store error on create or update is a 400. Code 121 gets the validation message as the handlers build it. Code 11000 gets the duplicate-email message. Anything else gets its message, or the handler's fallback when the message is empty. |
| GuestController.NewGuest | projet-mariage-back/src/controllers/guestController.ts:11-15 | The created document holds every body property except `_id`, plus `createdAt` and `updatedAt` set to the request time, and nothing else. |
| GuestController.CreateGuest | projet-mariage-back/src/controllers/guestController.ts:6-48 | A create answers 201 with the new id and the document, and the store grows by exactly that entry. Otherwise it answers 400 and the store is unchanged. The invariant is kept. |
| GuestController.CreateGuestAccepted | projet-mariage-back/src/controllers/guestController.ts:17-22 | A create succeeds iff the document meets the schema and its email is not yet on file. |
| GuestController.CreateGuestRejected | projet-mariage-back/src/controllers/guestController.ts:23-41 | A schema violation answers 400 with the validation message as the handler builds it ("[object Object]" after the prefix) and leaves the store unchanged. A taken email answers "Un invité avec cet email existe déjà". |
| GuestController.CreateThenGet | projet-mariage-back/src/controllers/guestController.ts:6-98 | A guest created under an id is then returned by `getGuestById` with the stored properties. |
| GuestController.GetAllGuests | projet-mariage-back/src/controllers/guestController.ts:51-62 | The list is a permutation of the collection, newest first, and `count` is its length. |
| GuestController.GetGuestById | projet-mariage-back/src/controllers/guestController.ts:73-98 | A malformed id is a 400 and an unknown one a 404. Otherwise the answer is the stored entry under that id. |
| GuestController.Sanitize | projet-mariage-back/src/controllers/guestController.ts:135-141 | An update keeps every body property except `_id`, `createdAt`, `updatedAt` and `undefined` values. It keeps `null`s and adds nothing. |
| GuestController.CheckGuestCount | projet-mariage-back/src/controllers/guestController.ts:143-157 | A present guest count passes iff `Number(...)` of it is not NaN and lies in [1, 10], and is then replaced by that number. An absent one passes unchanged. |
| GuestController.ApplyUpdate | projet-mariage-back/src/controllers/guestController.ts:164-207 | On an existing guest, the write answers 200 iff the store accepts it, with the merged document. A rejected write is a 400 that changes nothing, and its body is the catch block's answer to the store error. |
| GuestController.ApplyUpdateRejected | projet-mariage-back/src/controllers/guestController.ts:164-232 | A merged document the schema refuses gets the validation message. An email another guest holds gets the duplicate-email message. Both leave the store unchanged. Otherwise the write answers 200. |
| GuestController.UpdateGuest | projet-mariage-back/src/controllers/guestController.ts:109-233 | The ladder is: malformed id 400, then unknown id 404 (before any body check), then bad guest count 400. Any non-200 answer leaves the store unchanged. The invariant is kept. |
| GuestController.UpdateGuestRejected | projet-mariage-back/src/controllers/guestController.ts:159-232 | Past the id and count checks, an update whose merged document the schema refuses answers 400 with the validation message. One whose email another guest holds answers 400 with the duplicate-email message. Neither changes the store. Any other update answers 200. |
| GuestController.UpdateGuestWrites | projet-mariage-back/src/controllers/guestController.ts:159-168 | Past the id and count checks, an update writes the checked body with the new `updatedAt` and never sets `_id`. The document it writes is the merge. |
| GuestController.Merged | projet-mariage-back/src/controllers/guestController.ts:159-168 | After a merge, `updatedAt` is the request time. Every sanitised body property has the body's value, with `guestCount` as a number. Every other property keeps its old value. |
| GuestController.UpdateGuestMerges | projet-mariage-back/src/controllers/guestController.ts:159-207 | A 200 update returns and stores the merged document under the id and leaves every other guest in place. |
| GuestController.DeleteGuest | projet-mariage-back/src/controllers/guestController.ts:236-266 | A malformed id is a 400 and an unknown one a 404, both with no change. Otherwise the answer is 200 and the collection is exactly the old one without that guest. |
| AiTools.AddFiltersKeys | projet-mariage-back/src/services/aiService.ts:95-110 | After the sequence of conditional assignments, a property is in the query iff its filter is given and is not `undefined`, and it holds that filter. |
| AiTools.BuildQuery | projet-mariage-back/src/services/aiService.ts:95-110 | The query has one clause per given filter, `null` included, holding the filter's value, and no other clause. |
| AiTools.BuildQuerySelects | projet-mariage-back/src/services/aiService.ts:95-110 | A document matches the query iff every given filter holds of it, with a `null` filter matching null or missing. No filters select everything. |
| AiTools.TallyCounts | projet-mariage-back/src/services/aiService.ts:132-139 | The `byDinnerChoice` fold adds each group's size to the accumulator and creates exactly the groups that occur. |
| AiTools.ByDinnerChoice | projet-mariage-back/src/services/aiService.ts:132-139 | `byDinnerChoice` has a key exactly for the groups that occur, each holding the group's size. |
| AiTools.GuestStats | projet-mariage-back/src/services/aiService.ts:113-149 | `total` is the number of documents found, and each counter is at most `total`. |
| AiTools.CountEqualIsMatching | projet-mariage-back/src/services/aiService.ts:119-128 | Counting documents whose property is exactly a non-null value agrees with the size of the query for that value. |
| AiTools.StatsCountTrue | projet-mariage-back/src/services/aiService.ts:118-128 | `attending`, `dinner`, `brunch` and `needsAcc` count only the literal `true`. Each is the size of the query `{property: true}`. |
| AiTools.GuestCountSumBounds | projet-mariage-back/src/services/aiService.ts:129-131 | Over stored documents, the guest-count sum lies between 0 and 10 per attending guest. |
| AiTools.GuestCountSumIgnoresAbsent | projet-mariage-back/src/services/aiService.ts:129-131 | Guests who do not attend do not affect the guest-count sum, whatever their count. |
| AiTools.StatsExample | projet-mariage-back/src/services/aiService.ts:113-149 | Attending guests with counts 2, 1, 3 and a non-attending guest with count 5 give total 4, attending 3, sum 6. |
| AiTools.DinnerGroupsPartition | projet-mariage-back/src/services/aiService.ts:132-139 | Over stored documents, the groups "raclette", "pierreChaudde" and "unknown" partition the documents, and no other group occurs. "unknown" holds what `{dinnerChoice: null}` finds. |
| AiTools.ClampLimit | projet-mariage-back/src/services/aiService.ts:154 | A nullish limit becomes 20. Otherwise the limit is `Number(...)` of the value clamped into [1, 200], NaN exactly when that number is NaN. |
| AiTools.ListLimit | projet-mariage-back/src/services/aiService.ts:154-158 | An integral clamped limit is the cursor's limit. A NaN or fractional one is refused with the server's message when the server refuses such limits. Otherwise it is truncated: a fraction to its integer part, NaN to 0, which means no limit. |
| AiTools.ListGuests | projet-mariage-back/src/services/aiService.ts:150-173 | `list_guests` fails, with the server's message, iff the limit is refused. A finite clamped limit lists at most 200 guests. |
| AiTools.ListGuestsSound | projet-mariage-back/src/services/aiService.ts:150-173 | Listed items are matching guests cut to the ten listed properties. With no limit, or one the matches do not exceed, all are listed; otherwise exactly the limit is listed. |
| AiTools.ListGuestsNewest | projet-mariage-back/src/services/aiService.ts:155-171 | Each listed guest is cut from a matching guest no older than any matching guest left off the list. |
| AiTools.GuestByEmail | projet-mariage-back/src/services/aiService.ts:174-179 | `findOne({email})` returns a stored guest matching the query, and nothing only when no guest matches. |
| AiTools.AtMostOneWithEmail | projet-mariage-back/src/services/aiService.ts:177 | With unique emails, a query on one email finds at most one guest. |
| AiTools.GuestByEmailFinds | projet-mariage-back/src/services/aiService.ts:174-179 | On the collection, the lookup returns a guest iff that guest holds the email. An omitted email finds nobody. |
| AiTools.ToolByName | projet-mariage-back/src/services/aiService.ts:112-180 | A name selects a tool iff it is one of the three tool names, and each name selects its own tool. |
| AiTools.RunTool | projet-mariage-back/src/services/aiService.ts:112-180 | Stats run over `find(query)` of the filters. The email lookup throws iff the arguments are `null` (reading `email` of null). For an object it looks up that object's `email`. `list_guests` runs with `args?.filters ?? {}` and `args?.limit`, and its result or error is passed on. |
| AiTools.Failed | projet-mariage-back/src/services/aiService.ts:237-246 | A failed call's payload carries the error's message when it has one, and its message is never empty. |
| AiTools.ExecuteCall | projet-mariage-back/src/services/aiService.ts:225-247 | A parse failure and an unknown tool name each become an error payload with the error's message, instead of escaping. A known tool's result is the payload, and an error it throws becomes an error payload with that message. |
| AiTools.EmailCallFinds | projet-mariage-back/src/services/aiService.ts:225-247 | On the collection, a `get_guest_by_email` call naming an email answers with a stored guest holding that email, or with nothing when no guest holds it. |
| AiChat.ChatWithAI | projet-mariage-back/src/services/aiService.ts:182-258 | No key or an empty key means the fixed reply and no request. Otherwise the first request is system prompt plus question, with tools. With no tool calls the reply is the first answer's text (or ""). Otherwise exactly two requests are sent. The second, without tools, holds the conversation, the assistant message and one answer per call, in call order and tagged with the call's id. Endpoint errors and empty choices escape as errors. |
| AiChat.ReplyDetermined | projet-mariage-back/src/services/aiService.ts:182-258 | The requests sent and the endpoint's answers fix the reply: at most one reply follows from them. |
| AiController.Chat | projet-mariage-back/src/controllers/aiController.ts:4-19 | A missing, non-string or empty message is a 400 and reaches no model. Otherwise the service's reply, the one its requests lead to, is a 200 carrying it. An escaping error is a 500 with its message, or "Chat error". No other status occurs. |
| AuthMiddleware.BearerToken | projet-mariage-back/middlewares/authMiddleware.ts:15-20 | A token exists iff the header starts with "Bearer ", and it holds no space. |
| AuthMiddleware.Protect | projet-mariage-back/middlewares/authMiddleware.ts:10-33 | Every rejection is a 401. No token, or an empty one, is "Not authorized, no token". The request passes only with the claims the verifier returns for its token. |
| AuthMiddleware.ProtectAcceptsBearer | projet-mariage-back/middlewares/authMiddleware.ts:18-31 | For "Bearer <rest>", the token is `<rest>` up to its first space. The request passes iff that token is non-empty and verifies, carrying the verified claims, and is otherwise refused with the matching message. |
| Text.SplitAfterWord | projet-mariage-back/middlewares/authMiddleware.ts:19 | Splitting `word sep rest` on `sep` gives `word` followed by the pieces of `rest`. The second piece is `rest` up to its first `sep`. |
| PaymentController.ValidateCheckout | projet-mariage-back/src/controllers/paymentController.ts:24-48 | The body passes iff the amount is a positive number and the currency is falsy or a string. A falsy or non-number amount gets the "required" message, a negative one the "must be positive" message, and a positive amount with a truthy non-string currency the currency message. |
| PaymentController.ProviderFailureAsWritten | projet-mariage-back/src/controllers/paymentController.ts:82-101 | The written catch block answers nothing exactly for an error without a message. Otherwise it answers 400 iff the message mentions "montant", and 500 otherwise. |
| PaymentController.MessagelessErrorUnanswered | projet-mariage-back/src/controllers/paymentController.ts:82-101 | As written, a provider error without a message gets no response. |
| PaymentController.ProviderFailure | projet-mariage-back/src/controllers/paymentController.ts:82-101 | Every provider error is answered: 400 iff its message mentions "montant", otherwise 500. The answer carries the message, or the fallback when there is none. |
| PaymentController.ProviderFailureAgrees | projet-mariage-back/src/controllers/paymentController.ts:82-101 | On every error that has a message, the corrected catch block answers as the written one does. |
| PaymentController.CreateCheckoutSession | projet-mariage-back/src/controllers/paymentController.ts:17-102 | Validation failures and missing configuration answer without calling the provider. Otherwise the provider is called exactly once, with the amount, the currency or "eur" when none is given, and the product. A provider error goes to the catch block as written, so the handler answers nothing exactly when the error has no message. A missing or empty URL is a 500. The answer is 201 with the URL iff the provider returns a non-empty URL. |
| PaymentController.CreateCheckoutSessionCorrected | projet-mariage-back/src/controllers/paymentController.ts:17-102 | With the corrected catch block, every checkout is answered. The provider calls are the same, and a provider error gets the corrected catch block's answer. |
| PaymentController.CorrectedCheckoutAgrees | projet-mariage-back/src/controllers/paymentController.ts:17-102 | The corrected handler makes the same provider calls, and answers exactly as the written one whenever the written one answers. |
| PaymentController.CheckoutStatuses | projet-mariage-back/src/controllers/paymentController.ts:17-102 | The corrected handler answers every checkout with 201, 400 or 500. |
| PaymentController.CreatePaymentIntent | projet-mariage-back/src/controllers/paymentController.ts:110-118 | Every request answers 501 "Fonctionnalité non implémentée". |

## Left out

- Connecting to the database, logging, and the HTTP framework are left out. Handlers are functions from request data to a response and the new collection.
- PaymentController.CreateCheckoutSession: `NoResponse` stands for the catch block throwing. What the framework then does depends on its major version, which is not part of this model. Version 4 sends nothing; version 5 answers its default 500.
- A database that is unreachable, or fails inside a tool, is not modelled. The tool loop turns any thrown error into an error payload the same way, so `ExecuteCall` covers the shape of that outcome.
- The clock is a parameter `now`. The source reads it twice on create, and the model uses one reading for both timestamps.
- The id the store generates is a parameter of `CreateGuest`.
- GuestController.CreateGuest: a client-supplied `_id` in the body is dropped, while the source would pass it to the store as the document's id.
- GuestStore.IsValidId accepts exactly 24 hexadecimal digits. Older versions of the id library also accept any 12-character string, and the library version is not part of this model.
- Concurrent requests are not modelled. The branches of `updateGuest` for a guest deleted between its lookup and its write are kept as written, but the model shows they cannot fire in a sequential run.
- The body of a request is always an object. A missing body, which would make the handlers throw inside their own `try`, is not modelled.
- Numbers are reals plus NaN. Infinity, negative zero and 32-bit overflow of the guest count are not modelled.
- Js.ToNumber reads strings only in plain decimal-digit form. Signs, decimals, exponents, hex and whitespace read as NaN instead of their JavaScript value.
- AiTools.ListGuests: the driver passes a NaN or fractional limit on to the server unchanged. What the server does with it is not part of this model. The parameter `limits` chooses between two readings: the server refuses the request with its message, or it truncates the number (5.5 to 5, NaN to 0, meaning no limit). The model promises only what holds under the chosen reading.
- AiTools.GuestCountSum counts a truthy non-number guest count as 0, where JavaScript would concatenate it. Stored documents always have a numeric count or none (`GuestCountSumBounds`).
- AiTools.DinnerGroup groups a non-string, non-null dinner choice under "unknown", where JavaScript would use its string form. Stored documents never hold one (`DinnerGroupsPartition`).
- GuestSchema.Key: `Other(name)` stands for a property the schema does not name. A document whose `Other` key spells one of the schema's names (such as `Other("email")`) does not arise from decoding a request, and the model does not rule it out.
- GuestStore.Insert and GuestStore.UpdateFields treat every property name of a request body as a plain top-level name. The store reads a dotted name in `$set` (`"email.x"`) as a path, and it refuses a name starting with `$` in `$set` and at the top level of an insert. A body the store refuses for this reason is answered 400 by the handlers, where the model accepts it as new properties or answers by the schema alone.
- GuestStore.FieldMatches compares a query value, and so an email or filter passed as an object, as an opaque value. Query operators inside such an object (`{"$ne": null}`) are not modelled.
- Js.ToNumber gives NaN for every object and array. JavaScript gives 5 for `Number([5])` and 0 for `Number([])`.
- Property names inherited from the object prototype, such as "toString" or "__proto__", used as a tool name or a dinner choice are not modelled.
- The JSON text of tool results, the model name and the temperature of the completion requests are left out. The model keeps the payloads themselves and whether tools are offered.
- A tool the model asks for in the second round is ignored, as in the source: only the text of the second answer is returned.
- JSON parsing of tool arguments is the parameter `parse`. An object's `filters` that is nullish or not an object counts as no filters, as `args?.filters ?? {}` makes it.
- Signature and expiry checks of the JSON web token are the parameter `verify`, with the server secret inside it.
- The payment provider's checkout call is the parameter `provider`. Its own validation is not part of this model.
- `getBalance` in the payment controller, the payment service, the authentication controller, the routes, the application setup and the database setup are not part of this model.

## Findings

| source | as written | input that shows it | evidently intended | confidence | as-written member | corrected member |
|---|---|---|---|---|---|---|
| projet-mariage-back/src/models/Guest.ts:38 | The email pattern ends in `$`. The store's regular-expression engine also lets `$` match just before a final line break. | the email "a@b.co\n" | An email with a trailing line break is rejected. | medium, not executed | GuestSchema.TrailingNewlineAccepted | GuestSchema.ValidEmailShape |
| projet-mariage-back/src/controllers/guestController.ts:27-34 | The validation message concatenates `errInfo.details`, an object, to a string. This prints "[object Object]" whatever the report says (the same at lines 212-219). | any create or update that the schema rejects, for example a guest count of 0 | The message shows the rule report's text. | high, not executed | GuestController.ValidationReportLost | GuestController.ValidationMessage |
| projet-mariage-back/src/controllers/paymentController.ts:86 | `error.message.includes("montant")` reads the message without optional chaining. An error without a message makes the catch block throw, and the fallback at line 99 is never used for it. Under version 4 of the HTTP framework no response is sent; version 5 answers its own default 500 instead. | the provider rejecting with a value that has no `message` | Answer 500 with "Erreur lors de la création de la session de paiement". | medium, not executed | PaymentController.MessagelessErrorUnanswered | PaymentController.CreateCheckoutSessionCorrected |
