# Verified model of WebForms

WebForms serves HTML forms from YAML definitions, checks what is submitted, stores it in a
database or in files, and notifies webhooks and an AMQP broker. This project models the
parts of it whose behaviour is not visible in any single function, and proves what they
promise together.

- **The request protocol.** The server keeps no state per user. A session travels in hidden
  inputs of each page and comes back with the next post. `Web.Request` is the request
  object with its lazily parsed session, `Engine.Serve` the handler, proved equal to the
  function `Engine.Handle`. `Protocol` makes runs of it: a browser holds every page it ever
  got and a cookie, and may visit or post any of these pages, again and again, with any
  query, headers and credentials, while policy, captchas, storage and template execution
  answer as they like. `Gates` is about what a single request gets through, `Pages` about
  status, messages and template state of the answer, `Submissions` about what is stored of
  it; `Runs` is about pages and tokens
  along a run, `Codes` about entering and carrying access codes, `EscapedCodes` and
  `UsableForms` about what becomes of a code that is escaped on every page, `Stores` about
  what is stored and how often, `Zones` about the time zone. `QueryEncoding`, `Html` and
  `Session` say what a trip through a page does to a session.
- **The form parser.** `Schema` has the loops of the parser, each proved equal to a
  function; `SchemaTheorems` says what these functions mean for a field, a form and a pair
  of requests, and `FieldValues` says it from the definition and the posted texts alone.
  `Utils` has deduplication and the set type.
- **The INSERT statements.** `Quoting` and `Statements` write the text into a builder the
  way the stores do, and hold a reader for the same grammar. `StatementTheorems` proves
  that writing and reading undo each other and what a statement with its parameters means.
  `FlatLists` is about the lists that SQLite gets as one text.
- **Notifications.** `Queue` is the buffered channel, `Publishers` and `WebhookQueue` the
  two kinds of consumers in every interleaving, `Retry` the shared retry loop with its
  time bound, `Webhook` the sending loop, `AmqpWorker` the worker with its lazily opened
  connection, proved against a log of the calls that the broker saw.
- **The file store.** `FileStore` is the temp-then-rename write as steps that interleave
  and crash, and the method that takes these steps.

`Examples` writes out the texts that the constants amount to.

Strings of requests and forms are byte strings, as in Go; statements and file names are
sequences of characters. A loop over a Go map takes the keys in an arbitrary order.

## What the code does that its documentation does not say

- Between two attempts the code waits `timeout`; `docs/notifications.md` promises `interval`,
  which is never used for waiting (`Retry.IntervalIsNotUsed`).
- A retry count of zero means the default of three; only a negative count gives a single
  attempt (`Retry.SingleAttempt`).
- A stored form can be stored a second time by sending the same post again, as a reload of
  the result page does. The token prevents this only if a new one was drawn in between. So
  it does not with tokens off, nor for a form without codes, whose result pages hold no
  form and draw no token, nor after a result page that broke (`Stores.RepeatedPost`,
  `Stores.ReloadStoresAgain`).
- Tokens and captchas guard posts only. A form without codes stores what comes with another
  method, such as PUT, without looking at either (`Gates.TokenGuardsPosts`,
  `Gates.PutNeedsNoToken`).
- A page carries the access code escaped once more than the page before. So a code opens the
  form, but posting it is looked at only once the code, escaped as often as pages were
  turned, is one of the codes again. For a single code that means that it is unreserved and
  not empty: a form with the only code `a b`, `C++` or `50%` never stores anything
  (`EscapedCodes.SingleCode`, `EscapedCodes.NothingIsStored`,
  `UsableForms.CodeWithSpaceFails`). In general a form with codes can be submitted at all
  exactly if some non-empty code, escaped one or more times, is a code
  (`UsableForms.SubmittedIfMeeting`).
- If that takes two or more escapes, what is submitted is not the form but the access page
  that refused it. With the codes `a b` and `a%2Bb`, entering the first and posting the form
  gives an access page, and posting that one is processed and may be stored
  (`UsableForms.LateMeeting`, `EscapedCodes.PostedAgain`,
  `UsableForms.CodePageSubmitsIfMeetingLate`).
- The time zone of a user is wrong from the third post on when its name holds a reserved
  character, as in `Asia/Tokyo`, and on the first post when it holds a `+`
  (`Zones.ZoneAcrossTurns`, `Zones.ZonesGoWrong`).
- A record in the file store loses a field called `ID` (`FileStore.RecordKeepsFields`).

## Model

| member | source | states |
|---|---|---|
| QueryEncoding.EscapedForm | internal/web/web.go:181-187 | percent-encoding of a reserved byte: `%` and the two upper-case digits of its code (sections 2.1 and 2.3 of RFC 3986; space as `+`) |
| QueryEncoding.UnescapeInvertsEscape | internal/engine/form.go:140-143 | unescaping undoes escaping on every byte string |
| QueryEncoding.EscapeNeedsNoQuoting | internal/web/web.go:184-184 | an escaped string can stand in an HTML attribute without further escaping |
| QueryEncoding.EscapeTimesFixedPoint | internal/web/web.go:184-184 | however often escaping is repeated, a string comes back exactly if it is all unreserved characters |
| QueryEncoding.DecodeAfterTurns | internal/engine/form.go:138-143 | what is decoded after k+1 page turns is the original escaped k times |
| QueryEncoding.DecodeSurvives | internal/engine/form.go:138-149 | when decoding gives the original back: on no turn unless it looks escaped, on one turn always, later exactly for unreserved strings |
| QueryEncoding.ClosedUnderEscape | internal/engine/form.go:263-274 | a finite set of codes is closed under escaping exactly when all codes are unreserved |
| Html.ReadInputsOfInputs | internal/web/web.go:182-186 | a browser reads back from the written hidden inputs the same pairs in the same order |
| Session.SessionAfterPost | internal/web/web.go:210-221 | the session read from a page with other inputs before and after it: every embedded entry escaped once, and other inputs only under free names |
| FormValues.GroupKeepsAll | internal/schema/parser.go:145-145 | the form that the parser sees holds all values of a name in the order in which they were sent |
| Session.SessionRoundTrip | internal/web/web.go:181-221 | embed, post, parse gives the session with each key and value escaped once and no two keys merged, in every order of the keys |
| Session.TurnTimesAt | internal/web/web.go:181-221 | after n page turns each entry sits under its key escaped n times with its value escaped n times |
| Session.SessionSurvives | internal/web/web.go:181-221 | a session is unchanged by n page turns exactly when all keys and values are unreserved |
| Web.Request.VerifyCaptcha | internal/web/web.go:64-74 | a post passes exactly when every captcha accepts it; other methods always pass |
| Web.Request.VerifyXSRF | internal/web/web.go:76-78 | a post passes exactly when the cookie equals the non-empty form token |
| Web.Request.ParseSession | internal/web/web.go:210-221 | the session is every body name that starts with the prefix, with its first value |
| Web.Request.Session | internal/web/web.go:107-112 | parsed from the body on first use, kept afterwards |
| Web.Request.Pop | internal/web/web.go:115-119 | works on the raw map: nothing to pop, and nothing parsed, before the session was looked at |
| Web.Request.Push | internal/web/web.go:122-125 | adds one entry to the parsed session |
| Web.Request.EmbedXSRF | internal/web/web.go:174-179 | one token per response, in the cookie and in the page |
| Web.Request.EmbedSession | internal/web/web.go:181-187 | one hidden input per entry of the raw session, in some order of the keys |
| Web.Request.Render | internal/web/web.go:197-208 | exactly one response: the page with the status, or a blank page with status 500 when the template fails |
| Engine.NewRequestContext | internal/engine/form.go:243-251 | the context of templates; looking at the code forces the session to be parsed |
| Engine.ValidateCode | internal/engine/form.go:253-277 | validity, session and state after the code check, for every request |
| Engine.PreRender | internal/engine/form.go:210-241 | the state with description and defaults, or the first failure, with the session parsed on every path; what that shows is stated by `Pages.PageIsPrepared` |
| Engine.SendNotifications | internal/engine/form.go:191-208 | each destination is dispatched exactly once, in any order |
| Engine.EveryoneOnce | internal/engine/form.go:196-204 | each configured destination is among those dispatched exactly once |
| Engine.SubmitForm | internal/engine/form.go:137-189 | page, status, messages, session, stored record and dispatches of a submission; what is stored is stated by `Submissions.StoredIsRecord` |
| Engine.Serve | internal/engine/form.go:88-135 | the whole effect of a request, for every environment: one response, at most one store, dispatches; who is turned away is stated by `Gates.ForbiddenExactly` |
| Engine.HandleRequest | internal/engine/form.go:69-79 | the installed handler starts each request with a fresh request object |
| Gates.StoredExactlyBehindTheGates | internal/engine/form.go:88-189 | storage is called exactly when policy, code and start marker pass, for a post also token and captchas, and no field is in error; notifications exactly after a successful store; result pages exactly after a store |
| Gates.ForbiddenExactly | internal/engine/form.go:89-100 | turned away are exactly posts without a matching token while tokens are on, and identified users whom the policy refuses; nothing is stored or notified then |
| Gates.TokenGuardsPosts | internal/web/web.go:76-78 | with tokens on, a stored post had a matching token and would not be stored without the cookie; other methods are stored with or without one, but only without codes |
| Gates.PutNeedsNoToken | internal/engine/form.go:88-135 | an empty PUT without cookie is stored by a form with tokens on and no codes, policy and fields |
| Gates.CarriedCodeDecides | internal/engine/form.go:263-276 | a carried code alone decides; without one the typed code decides and the request is a fresh start |
| Gates.PageSessions | internal/engine/form.go:102-189 | for every request the session embedded in each kind of page: form and result pages hold a valid code, forms never the start marker, results always |
| Gates.OtherEntriesPass | internal/engine/form.go:88-189 | entries other than the code and the start marker pass a request untouched |
| Gates.FormPageKeepsInput | internal/engine/form.go:220-239 | a form page keeps for every posted name what the user had entered, in the way of the last field of that name |
| Pages.DefaultsRendered | internal/engine/form.go:220-238 | fields that were not sent get their rendered default, the last field of a name deciding; the loop fails exactly if one of these fails to render, with the reason of the first |
| Pages.PageIsPrepared | internal/engine/form.go:115-118 | every page behind the gates holds description and defaults exactly if all needed ones render, with what was sent for the fields that were, and else a first message with the first failure |
| Pages.Statuses | internal/engine/form.go:88-183 | the status of every page; that of the form page is 200, 400 or 422 by the reason to show it |
| Pages.Messages | internal/engine/form.go:91-170 | the messages of every page: why the request was turned away, or one for each field error in order and under the name of its field |
| Pages.ResultShown | internal/engine/form.go:168-183 | exactly the pages of a stored request hold a result, that of the storage, marked as failed or not |
| Pages.CodeShown | internal/engine/form.go:271-276 | exactly the pages behind the code check hold the code, that of their session |
| Pages.FormGiven | internal/engine/form.go:77-77 | every page is given the definition of the form |
| Submissions.StoredIsRecord | internal/engine/form.go:137-168 | whatever is stored is the record of definition and request: body, query, headers, code and user of the request, read in the zone that the request names, unescaped once |
| Protocol.PageOfSession | internal/assets/views/form.gohtml:74-76 | a page rendered for a fitting session posts back a fitting session |
| Protocol.StepExists | internal/engine/form.go:88-135 | the handler is never stuck: every possible action of a browser gets an answer, whatever the environment does |
| Protocol.StepKeepsInv | internal/engine/form.go:88-189 | no request, page, entry or environment breaks the page invariant |
| Runs.EveryPageFits | internal/engine/form.go:102-134 | in every run form pages carry a valid code and no start marker, result pages a valid code and the marker, access pages never a code |
| Codes.StoresOnlyFromForm | internal/engine/form.go:120-134 | in every state with the page invariant, as along all runs with usable codes or none, storage is called only on the post of a form page |
| Stores.FormBetweenStores | internal/engine/form.go:120-167 | whatever tokens are on, without codes or with codes none of which meets one late: between any two stores of a browser that goes on from its last page a new form page was rendered |
| Stores.StoredPageIsNew | internal/web/web.go:257-264 | for every definition: with tokens on, the page of a store is never older than a token drawn before it, whichever pages the browser goes back to |
| Stores.StoredFormIsNew | internal/web/web.go:174-179 | that page is a form page, without codes or with codes none of which meets one late |
| Stores.NewFormForEachStore | internal/engine/form.go:120-167 | with tokens on and codes none of which meets one late, in every run each further store is the post of a form page rendered after the store before, unless the result page of that one broke before drawing its token |
| Stores.PageStoredOnce | internal/web/web.go:257-264 | for every definition: with tokens on, one page is stored twice only if no token was drawn in between; with codes only if the first result page broke before drawing its own |
| Stores.RepeatedPostStoresAgain | internal/engine/form.go:90-94 | with tokens off or the same token still in the cookie, posting the same page with the same entry again stores the same record again |
| Stores.RepeatedPost | internal/web/web.go:174-179 | for every definition: a stored post sent again later is stored again exactly when tokens are off or no token was drawn in between |
| Stores.ReloadStoresAgain | internal/assets/views/success.gohtml:6-14 | for every definition: sent again at once it is stored again exactly when tokens are off, or the form has no codes, or the result page broke before drawing its token |
| Codes.CodeOpensForm | internal/engine/form.go:108-124 | on every access page that fits, as all of a run with usable codes do after any number of wrong codes, a valid code opens the form and stores nothing |
| Codes.VisitEnterSubmit | internal/engine/form.go:102-134 | visiting a form, entering a valid code and submitting shows access page and form, and stores in the last step only, exactly when captchas and fields are in order |
| Codes.FormPageIsProcessed | internal/engine/form.go:263-274 | for every definition: a posted form page is processed exactly when its code is not empty and the escaped code is a code |
| Codes.FormPageSubmits | internal/engine/form.go:120-134 | with usable codes, or none, every form page of a run can be submitted, and is stored exactly when captchas and fields are in order |
| Codes.CodesAreUsable | internal/engine/form.go:263-274 | every code can be used to submit exactly when none is empty and all are unreserved |
| Codes.CodeOpensFirst | internal/engine/form.go:102-124 | for any codes: on the page of a first visit each of them opens the form |
| EscapedCodes.PageIsTraced | internal/engine/form.go:263-276 | whatever the codes are, in every run each page carries no code, or a code escaped once (form and result pages) or more often (access pages) without having met a code before; result pages carry the start marker |
| EscapedCodes.ProcessedMeetsCode | internal/engine/form.go:263-276 | whatever the codes are, a post of any run whose data is looked at carries some non-empty code escaped n > 0 times that is just now a code again; it is a form page if n is 1 and an access page otherwise |
| EscapedCodes.PostedAgain | internal/engine/form.go:263-276 | after entering a code and posting each page that comes, the n-th post is processed exactly if the code escaped n times is a code, given none was met before; the first is of the form, the others of access pages |
| EscapedCodes.NothingIsStored | internal/web/web.go:181-221 | a form none of whose non-empty codes, however often escaped, is a code again stores nothing in any run |
| EscapedCodes.SingleCode | internal/web/web.go:181-187 | a single code never meets a code again exactly if it is empty or holds a reserved character |
| EscapedCodes.UnsafeMeetNothing | internal/web/web.go:181-187 | codes that all hold a reserved character other than `+` and `%` meet nothing |
| EscapedCodes.StoreIsOfForm | internal/engine/form.go:120-167 | every store of every run is the post of a form page, without codes and with codes that meet a code after one escape or never |
| UsableForms.RunExists | internal/engine/form.go:263-276 | for every code there is a run that enters it and posts each page until a code is met |
| UsableForms.SubmittedIfMeeting | internal/engine/form.go:263-276 | some run of a form with codes has a post processed exactly if some code meets a code |
| UsableForms.CodePageSubmitsIfMeetingLate | internal/engine/form.go:263-276 | some run has the post of an access page processed exactly if some code meets its first code after two or more escapes |
| UsableForms.LateMeeting | internal/web/web.go:181-187 | two codes of that kind |
| UsableForms.CodeWithSpaceFails | internal/engine/form.go:263-274 | with a code that holds a space: entering it opens the form, and no action of the run stores anything |
| Zones.ZoneAfterTurns | internal/assets/views/form.gohtml:76-113 | the session zone wins over the one filled in by the script, and after k turns it is the first one escaped k times |
| Zones.ZoneAcrossTurns | internal/engine/form.go:138-149 | which zone the handler decodes on each post of such a run, and exactly when it is the right one |
| Zones.RecordInZone | internal/engine/form.go:145-153 | what a later post of such a run stores is the record of definition and request read in the zone of the name that is then decoded, and in the local zone if there is none of that name |
| Zones.InstantInZone | internal/schema/parser.go:47-48 | so a stored date-time is the first text that is not blank, parsed in that zone |
| Zones.ZonesGoWrong | internal/engine/form.go:138-149 | two ordinary zone names that are decoded wrongly, one from the third post on and one on the first |
| Schema.TrimIdempotent | internal/schema/parser.go:207-212 | the second trim of a value changes nothing |
| Schema.TrimMeaning | internal/schema/parser.go:55-55 | trimming removes white space only and leaves none at either end |
| Schema.FirstErrorStays | internal/schema/parser.go:39-40 | of a bad character and an overflow the error of the leftmost is reported |
| Schema.NextCharacter | internal/schema/parser.go:39-40 | a bad character is a syntax error, a digit too many out of range |
| Schema.ParseIntReadsDecimal | internal/schema/parser.go:39-40 | exactly the integers of 64 bits are read back from their decimal form |
| FieldValues.SpaceIsWhiteSpace | internal/schema/parser.go:55-55 | of the encoded characters exactly those with the property White_Space are trimmed, at either end |
| FieldValues.ParseIntMeaning | internal/schema/parser.go:39-40 | accepted are exactly the decimal notations of 64-bit numbers, signed or not, each as its number |
| FieldValues.ParseBoolMeaning | internal/schema/parser.go:43-44 | accepted are exactly six texts for true and six for false |
| FieldValues.CheckTextMeaning | internal/schema/parser.go:35-73 | a trimmed text is accepted with a value exactly if its pattern holds and its type reads it as that value: which library function for floats, dates and date-times |
| FieldValues.RefusedText | internal/schema/parser.go:67-73 | why a text is refused: the pattern for texts, else the reason of the function that reads the type |
| FieldValues.PrintedIsRead | internal/storage/db.go:198-209 | booleans and 64-bit integers are read back from the text they are printed as |
| FieldValues.AllowedMeaning | internal/schema/parser.go:76-86 | allowed is the value of an option, or the label of one without value, or anything without options |
| FieldValues.SubmittedMeaning | internal/schema/parser.go:130-160 | exactly which texts a field looks at: its default alone if the user cannot edit it, else what was posted, and the default of a checkbox with nothing posted; and when the default fails |
| Schema.DefaultNeverSubstituted | internal/schema/parser.go:54-74 | on a trimmed non-blank value neither the default nor the required-field error is reached |
| Schema.OptionValues | internal/schema/parser.go:76-86 | the allowed texts: the value of each option, or its label when the value is empty |
| Schema.ParseValues | internal/schema/parser.go:205-219 | blank values dropped, the others parsed in order, the first failure reported; the values are stated by `FieldValues.CheckTextMeaning` |
| Schema.CollectValues | internal/schema/parser.go:130-160 | the texts a field looks at, without repetition, or the failure of its default; which texts these are is stated by `FieldValues.SubmittedMeaning` |
| Schema.ParseField | internal/schema/parser.go:128-200 | the outcome of one round of the loop on each of its exits |
| Schema.ParseForm | internal/schema/parser.go:123-203 | map and error list are those of the field verdicts |
| SchemaTheorems.FieldVerdict | internal/schema/parser.go:162-200 | stated on the raw values: when a field is rejected, stored or absent, and where a stored value comes from |
| SchemaTheorems.RejectionOrder | internal/schema/parser.go:162-194 | which error is reported: options first, then the first failing value, the required check last |
| SchemaTheorems.ParseConcat | internal/schema/parser.go:127-202 | parsing two parts of a definition concatenates the errors and lets the later part win in the map |
| SchemaTheorems.LastStoredWins | internal/schema/parser.go:196-200 | a name is in the map exactly when some field of that name stored a value, and the last one counts |
| SchemaTheorems.ErrorsReportRejected | internal/schema/parser.go:123-203 | the error list names exactly the rejected fields, in definition order |
| SchemaTheorems.FieldsPartition | internal/schema/parser.go:123-203 | with distinct names each field ends in exactly one of error, stored or absent, and stored names are never error names |
| SchemaTheorems.AcceptedFormIsSound | internal/schema/parser.go:123-219 | without errors every field is acceptable, required ones are present, and every stored value is a typed, allowed, non-blank submitted value |
| FieldValues.OutcomeMeaning | internal/schema/parser.go:130-200 | the outcome of a field from its definition and the posted texts alone: when it is rejected, absent or stored, and as what value |
| FieldValues.FixedTextIsStored | internal/schema/parser.go:131-142 | a text field that the user cannot edit stores its trimmed default |
| FieldValues.TickedIsTrue | internal/assets/views/form.gohtml:42-47 | a ticked checkbox stores true |
| FieldValues.AcceptedRecord | internal/schema/parser.go:123-203 | without errors the map holds of each name what the last field of that name with something to store makes of its texts, and nothing else |
| SchemaTheorems.OnlyEditableInputMatters | internal/schema/parser.go:127-160 | two requests that agree on editable input, and on the defaults of fields that take theirs, parse to the same map and errors |
| SchemaTheorems.RequiredErrorIsUnreachable | internal/schema/parser.go:63-65 | the field parser's required error is never in the error list |
| Utils.Uniq | internal/utils/utils.go:7-17 | same elements, no repetition |
| Utils.FirstOccurrencesMeaning | internal/utils/utils.go:7-17 | each element at the position of its first occurrence, in order |
| Utils.FilterFirstOccurrences | internal/schema/parser.go:145-211 | deduplicating and dropping blanks commute |
| Utils.Set.constructor | internal/utils/utils.go:21-27 | the set of the values |
| Utils.Set.Add | internal/utils/utils.go:38-42 | adds exactly the values |
| Utils.Set.Has | internal/utils/utils.go:29-36 | holds exactly when every value is in the set |
| Quoting.QuoteBuilder | internal/utils/strings.go:13-23 | appends the quoted value to the builder |
| Quoting.Quote | internal/utils/strings.go:7-11 | the same as a text of its own |
| Quoting.UnquoteInvertsQuoted | internal/utils/strings.go:13-23 | unquoting a quoted value followed by any text gives that value and that text |
| Quoting.UnquoteIsExact | internal/utils/strings.go:13-23 | the unquoter accepts nothing but quoted values |
| Quoting.QuotedIsPrefixDecodable | internal/utils/strings.go:13-23 | quoted values can be told apart whatever follows, exactly for quotation marks other than the backslash |
| Examples.QuotedWritten | internal/utils/strings_test.go:9-23 | an example of quoting in full |
| Examples.StatementWritten | internal/storage/db.go:60-83 | the statements for two columns in full |
| Statements.WriteColumns | internal/storage/db.go:60-71 | head, table and columns in the order of the keys |
| Statements.PostgresStatement | internal/storage/db.go:55-84 | the text and parameters of an INSERT of all fields in one order of the keys, placeholders numbered from 1 |
| Statements.SQLiteStatement | internal/storage/db.go:130-168 | the same with positional placeholders and lists joined |
| Statements.JoinIterable | internal/storage/db.go:198-209 | the texts of the items with the separator between them |
| StatementTheorems.ReadPrint | internal/storage/db.go:60-83 | reading a written statement gives table, columns and placeholders back, for every table and columns |
| StatementTheorems.PrintRead | internal/storage/db.go:60-83 | whatever the reader accepts is written back to the same text |
| StatementTheorems.PostgresReads | internal/storage/db.go:55-84 | for every order of the keys the text reads back as the statement that was meant, placeholder i bound to column i |
| StatementTheorems.SQLiteReads | internal/storage/db.go:130-168 | the same with positional placeholders |
| StatementTheorems.PostgresMeans | internal/storage/db.go:55-84 | whatever order of the keys was taken, reading the text gives the table, and binding the parameters to what was read gives exactly the stored map |
| StatementTheorems.SQLiteMeans | internal/storage/db.go:130-168 | for SQLite the text and parameters denote the stored map with its lists joined |
| StatementTheorems.PostgresInjective | internal/storage/db.go:55-84 | equal text and parameters come from equal table and fields only |
| FlatLists.FlatListReads | internal/storage/db.go:158-163 | a joined list of non-empty texts is split back exactly when none holds a comma |
| FlatLists.StoredListReads | internal/storage/db.go:158-163 | the lists that the form parser stores come back: always for integers and booleans, for texts exactly without commas, the empty list included |
| FlatLists.SQLiteParam | internal/storage/db.go:156-165 | what SQLite is given for a field: the value as it is, and for a list one text that is read back exactly without commas |
| Queue.ExactlyOnePlace | internal/notifications/webhook/webhooks.go:90-97 | an accepted task is queued, in flight or finished, in exactly one of them and once |
| Queue.ConservedTasks | internal/notifications/amqp/amqp.go:84-89 | besides, a cancelled or still waiting offer is nowhere |
| Publishers.Conservation | internal/notifications/amqp/amqp.go:84-107 | in every interleaving: queue within its buffer, order kept, each accepted task in one place, no more in flight than publishers |
| Publishers.SinglePublisherIsSequential | internal/notifications/amqp/amqp.go:93-107 | with one publisher tasks are finished in the order in which they were accepted |
| Publishers.CanDeliver | internal/notifications/amqp/amqp.go:84-107 | nothing gets stuck: while a publisher is idle some run finishes all that is queued and then any new task, even without a buffer |
| Publishers.CanQueue | internal/notifications/amqp/amqp.go:84-89 | as long as there is room a task can be taken into the queue, behind all others |
| WebhookQueue.Conservation | internal/notifications/webhook/webhooks.go:70-97 | the same for webhooks; and when the loop has returned nothing it started is in flight |
| WebhookQueue.ReturnedStays | internal/notifications/webhook/webhooks.go:70-88 | after the return nothing is started any more |
| WebhookQueue.CanDeliver | internal/notifications/webhook/webhooks.go:70-97 | while the loop receives, some run finishes all that is queued and then any new task, even without a buffer |
| WebhookQueue.CanReturn | internal/notifications/webhook/webhooks.go:70-88 | from every state the loop can return, after its senders and without starting what is queued |
| Retry.AttemptsBounded | internal/notifications/webhook/webhooks.go:110-129 | between 1 and max(retry, 0) + 1 attempts, and none after a success or a stop |
| Retry.AttemptsCounted | internal/notifications/amqp/amqp.go:110-133 | for any outcomes there is exactly one number of attempts, the computed one |
| Retry.SingleAttempt | internal/notifications/webhook/webhooks.go:39-47 | after defaults a single attempt is made exactly for negative counts, and the times are positive; set values are kept, and the defaults are 3 retries, 10 and 15 seconds |
| Retry.TimeBounded | internal/notifications/webhook/webhooks.go:122-128 | if the attempts that are made stay within the timeout, the delivery takes at most (2 max(retry, 0) + 1) timeouts |
| Retry.EvenTime | internal/notifications/webhook/webhooks.go:110-129 | attempts of equal length: the time is that of all attempts and of one timeout between any two |
| Retry.StopEndsWait | internal/notifications/webhook/webhooks.go:122-127 | a stop during a wait ends the wait there, and the delivery with it |
| Retry.TimeBoundIsReached | internal/notifications/webhook/webhooks.go:110-129 | the bound on the time is reached |
| Retry.IntervalIsNotUsed | internal/notifications/amqp/amqp.go:125-130 | the waits are as documented exactly when interval and timeout agree or nothing is retried |
| Webhook.DeliveredIs2xx | internal/notifications/webhook/webhooks.go:153-156 | the division test accepts exactly the codes from 200 to 299 |
| Webhook.Send | internal/notifications/webhook/webhooks.go:104-130 | number of attempts, success and elapsed time for every behaviour of the remote side and every moment of stopping; nothing is sent to an invalid address |
| AmqpWorker.OpenMinusClosed | internal/notifications/amqp/amqp.go:185-215 | in a log that obeys the protocol connections opened minus closed is 1 while one is held and else 0, and a channel needs a connection |
| AmqpWorker.Worker.Close | internal/notifications/amqp/amqp.go:205-215 | adds to the log the closing of the channel, then of the connection, each if held, and nothing else |
| AmqpWorker.Worker.GetConnection | internal/notifications/amqp/amqp.go:185-203 | reuses the held connection and adds nothing to the log, else adds one successful dial or nothing |
| AmqpWorker.Worker.GetChannel | internal/notifications/amqp/amqp.go:165-183 | reuses the held channel; else the log gains what connecting needs and the opened channel, or the closing of the connection when that fails |
| AmqpWorker.Worker.TrySend | internal/notifications/amqp/amqp.go:135-157 | one attempt: success, and exactly the calls that it adds to the log, the last of them the publish of this task on the open channel |
| AmqpWorker.Worker.SendTask | internal/notifications/amqp/amqp.go:110-133 | attempts, success, elapsed time and the calls added to the log; the task is confirmed once or not at all, no other task ever; nothing is held after a failure |
| AmqpWorker.Run | internal/notifications/amqp/amqp.go:93-107 | each task is attempted and delivered as its outcomes say, its message confirmed once if delivered and else never; the log is that of those attempts, obeys the protocol, and all that was opened is closed |
| FileStore.TempNamesApart | internal/storage/file.go:54-54 | temporary names of different identifiers never coincide |
| FileStore.AtomicWrites | internal/storage/file.go:51-69 | in every interleaving of writers with crashes anywhere: a target is absent or complete, there exactly on success, and a writer that returned left no temporary file |
| FileStore.OtherFilesStay | internal/storage/file.go:51-69 | files that no writer owns are never touched |
| FileStore.AtomicWrite | internal/storage/file.go:51-69 | the code takes a run of these steps and changes the directory by the complete target or not at all |
| FileStore.Record | internal/storage/file.go:37-41 | the stored record is the fields with the identifier as `ID` |
| FileStore.RecordKeepsFields | internal/storage/file.go:18-20 | all source fields are kept, as documented, exactly when none is called `ID` with another value |
| FileStore.Store | internal/storage/file.go:34-48 | record, document and directory after storing, for every failure of encoder and file system |

## Left out

- FileStore.AtomicWrites: a crash stops a writer between two steps; losing power, with what the disk then remembers of an unsynced file, is not modelled, and cleanup calls succeed.
- Templates, markdown and the HTML around the hidden inputs: a template is a function of the request context that gives text or fails; of the views only the order of the inputs inside their form is kept.
- Policies, OIDC, captcha services, regular expressions, and parsing of floats, dates and zone names: outside functions or free choices of the environment.
- Errors of net/http while parsing a body, and cookie expiry. The two reads inside `newRequestContext` are taken as made on a parsed body; Go leaves their order open, which can only matter for a form without codes, on a post with tokens off or on a PUT or PATCH.
- Random tokens and identifiers are taken to be fresh and distinct, and tokens to be non-empty and hexadecimal; running out of randomness is not modelled.
- Several forms on one server: they share the token cookie, so a visit to another form draws a new token too. The runs are about one form.
- Requests of one browser follow one another; two requests of one browser at the same time are not modelled.
- `Messages`, `Info`, `Clear`, client addresses, routing, YAML loading and the command line: plumbing.
- Drivers, migrations and rows coming back from the database. The quoting is the repository's own; nothing is claimed about delimited identifiers of SQL dialects.
- Invalid UTF-8 in a quoted name: a name is a sequence of characters.
- Formatting of floats, times and nested lists inside SQLite texts, and the JSON encoder: outside functions.
- The default method, headers and messages of a webhook or AMQP definition, and the headers map that copies of a webhook definition share: they would add easy members.
- The exit of a consumer loop on a closed channel: nothing in the repository closes these channels.
- A publish that fails at the client although the broker took the message; a failed call counts as not taken.
- Overflow of the attempt counter, and liveness: that a queued task is ever taken is not claimed.
- Creating the directory of a table in the file store, and its failure.
