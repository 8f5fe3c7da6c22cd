# SmartLock: a verified model

SmartLock opens doors. A lock is an actor that decides each access request from the roles it cached
when it was activated, answers at once, and writes its access history behind: entries collect in
memory and a timer flushes them to one table shared by all locks. Requests arrive over HTTP and over
MQTT, where the actor's replies are injected into the very broker whose publishes are intercepted.
The history is read back in pages. The web pages use a bundled form-validation script that turns
`data-val-*` attributes into validation rules.

This project models those parts in Dafny 4.11 and proves what they guarantee. `dafny verify
dfyconfig.toml` checks all of it.

| file | what it holds |
|---|---|
| `Common.dfy`, `Domain.dfy`, `Utf16.dfy` | small helpers; locks, history entries, messages; text in UTF-16 units |
| `GrainModel.dfy` | one activation as a value, and what each of its turns does |
| `LockGrain.dfy` | the actor as an object, with its list shortened in place, proved against `GrainModel` |
| `AccessLog.dfy` | many actors over one table as a step system, and the invariant of every run |
| `AccessJournal.dfy` | the history of a run beside the system, and the invariant that ties it to table, lists and messages |
| `AccessDurability.dfy` | how far committed saves reach: exactly-once and at-least-once logging, copies, what is lost |
| `LateCommits.dfy` | the same log when saves can commit after a failure or after their activation |
| `AccessTheorems.dfy` | progress, head-of-line blocking, the table's keys, replies and messages |
| `AccessHistory.dfy` | paging over the table, 32-bit offsets, stability of full pages over runs |
| `Claims.dfy` | tokens, both entry paths, the decision from token to log |
| `Broker.dfy` | the cascade of publishes, grain calls and injected replies |
| `Selectors.dfy` | attribute escaping against the two readers of a quoted selector |
| `FieldLists.dfy` | trimming and splitting of field lists |
| `ModelNames.dfy` | model prefixes and relative names |
| `Adapters.dfy`, `Unobtrusive.dfy` | the adapters, the parsing object, and what parsing leaves behind |
| `BuiltInRules.dfy`, `ParsingTheorems.dfy` | the rules of the built-in adapters by attribute, idempotence, and what the bounds mean |

## What the steps assume

- A request handler has no await, so it is one atomic step. Timer callbacks interleave with requests
  but not with themselves, and there is one activation per lock id.
- A flush is three steps: the tick that hands the batch to the store, the store's commit, and the
  grain's resumption. Any step of any grain can come between them.
- A save is all or nothing. It may fail at any time, and it may commit and still report a failure.
  That it does not commit later, after it failed or after its activation died, is assumed in all files
  but `LateCommits.dfy`, where it may.
- The store accepts a batch only if every entry names an existing lock, an existing requester and, if
  it names an employee, an existing one. Locks and users are added and roles edited, never removed.
- The store compares ids exactly and returns rows in the order they were appended; the query has no
  ordering of its own. It refuses a negative offset and a fetch of no rows.
- Reading a token back keeps the user id and the roles, the latter in order; other claims may be added
  or moved. GUID parsing and payload deserialising are parameters of the gateway.
- Text is well-formed Unicode; the clock is a parameter of each request.
- A selector put to a single input goes to the browser's own matcher, which follows CSS Syntax Level 3.
- Converting a string to a number is a parameter of the validator's methods; what is asked of it is
  that it ignores a tab at either end and rejects control characters below tab.

## Where the code differs from its documentation

- The repository's README says histories can be persisted when a grain shuts down. Nothing does so:
  `DeactivationLosesTheTail` says exactly what is lost.
- An access is meant to be logged once. `ExactlyOnce` says when it is: unless a save commits after an
  earlier save of the same activation committed and reported failure (`FalseFailureWritesTwice`).
- `addSingleVal` documents `val` as the default attribute. The default is declared but never read
  (`SingleValReadsIff`).
- `addMinMax` documents that the two attribute names can be changed. The function reads `min` and `max`
  whatever is declared, so an adapter reads its bounds only with the default names
  (`MinMaxReadsTheDeclaredIff`).
- The built-in `minlength` and `maxlength` adapters leave rule names out. `minlength` with a maximum, and
  `maxlength` with both bounds, set a rule called `undefined`, for which the validator has no method. A
  single bound of `range` stays a string and is compared as one: with 5 as the minimum, 10 is rejected
  (`BoundRulesMeanTheBoundsIff`, `TenIsBelowFive`).
- `escapeAttributeValue` is enough for the bundled selector engine on every name
  (`SelectorTestsTheName`), but for the browser's own CSS parser only on names without newline,
  carriage return, form feed and NUL (`CssReadsBack`); so a lookup by name can go wrong only on a NUL
  (`LookupIsRightIff`).
- `appendModelPrefix` uses a replacement template, so a prefix containing a dollar-sign pattern is not
  kept (`RelativeNameIsSiblingIff`, `DoubledDollarIsHalved`).
- The page offset is a 32-bit product: `ServiceIsExactIff` says when the service still returns the
  page asked for, and `OffsetCanWrapToTheFirstPage` names a page where it returns the first one again.

## Model

| member | source | states |
|---|---|---|
| LockGrain.AccessList.Add | src/SmartLock.Implementation/Grains/LockGrain.cs:33 | an entry is appended whatever the capacity, and nothing else in the list changes |
| LockGrain.AccessList.RemoveFront | src/SmartLock.Implementation/Grains/LockGrain.cs:68 | removal in place drops exactly the first entries and keeps the others in order |
| LockGrain.LockGrain.constructor | src/SmartLock.Implementation/Grains/LockGrain.cs:15-19 | a new grain has no lock, an empty list and no flush under way |
| LockGrain.LockGrain.OnActivate | src/SmartLock.Implementation/Grains/LockGrain.cs:40-54 | the grain caches the lock of its key with the roles the database has for it, and only an existing lock gets a timer |
| LockGrain.LockGrain.RequestAccess | src/SmartLock.Implementation/Grains/LockGrain.cs:21-38 | reply, new entry and outgoing message of a request, for existing and missing locks |
| LockGrain.LockGrain.StartSave | src/SmartLock.Implementation/Grains/LockGrain.cs:56-66 | the batch handed to the store is the whole list, and its length is remembered |
| LockGrain.LockGrain.ResumeSave | src/SmartLock.Implementation/Grains/LockGrain.cs:68 | after a save that returned, the remembered number of entries leaves the front |
| LockGrain.LockGrain.FaultSave | src/SmartLock.Implementation/Grains/LockGrain.cs:66 | after a save that threw, the list keeps every entry |
| LockGrain.LockGrain.SaveLockAccess | src/SmartLock.Implementation/Grains/LockGrain.cs:56-69 | one callback with requests arriving during the await: a returned save moves exactly the entries present at its start and leaves exactly the arrivals, a thrown one leaves everything |
| LockGrain.RequestsAppend | src/SmartLock.Implementation/Grains/LockGrain.cs:33 | requests only append, so removing from the front commutes with any number of them |
| LockGrain.ArrivalsDuringAFlush | src/SmartLock.Implementation/Grains/LockGrain.cs:61-68 | start, arrivals and removal leave the arrivals; start, arrivals and fault leave everything |
| AccessLog.NextIsSane | src/SmartLock.Implementation/Grains/LockGrain.cs:21-69 | every step of every grain keeps the batch in flight the front of its list and the count its length |
| AccessLog.RunIsSane | src/SmartLock.Implementation/Grains/LockGrain.cs:21-69 | the same over every run of many grains |
| AccessLog.StepEffects | src/SmartLock.Implementation/Grains/LockGrain.cs:35-66 | a lock's rows change only by its own commits and its topic only by its own requests |
| AccessLog.ExecConcat | src/SmartLock.Implementation/Grains/LockGrain.cs:21-69 | runs compose |
| AccessJournal.NewAttemptRetries | src/SmartLock.Implementation/Grains/LockGrain.cs:61-65 | a tick's batch contains, from the front, the batch of a failed save before it |
| AccessJournal.ReturnKeepsEpoch | src/SmartLock.Implementation/Grains/LockGrain.cs:66-68 | removal after a committed save keeps removed and remaining entries together equal to all accesses |
| AccessJournal.OwnEpochStep | src/SmartLock.Implementation/Grains/LockGrain.cs:21-69 | every step of an activation keeps its history, attempts, list and flight consistent |
| AccessJournal.RunIsConsistent | src/SmartLock.Implementation/Grains/LockGrain.cs:21-69 | in every run and for every lock, table rows, messages, lists and batches in flight agree with the history of its activations |
| AccessDurability.HistoryIsTheRequests | src/SmartLock.Implementation/Grains/LockGrain.cs:26-37 | that history is exactly the run's requests to loaded locks, in order |
| AccessDurability.RowsAreWhatWasReached | src/SmartLock.Implementation/Grains/LockGrain.cs:33-68 | in every run a lock's rows are the rows before, the accesses its activations reached, and copies of such accesses; they are the former two, in order, if and only if no save commits after one of its activation that committed and reported failure |
| AccessDurability.ExactlyOnce | src/SmartLock.Implementation/Grains/LockGrain.cs:33-68 | a lock's new rows are, activation by activation and in order, the first accesses of each, if no save commits after one of its activation that committed and reported failure; for distinct accesses if and only if |
| AccessDurability.FalseFailureWritesTwice | src/SmartLock.Implementation/Grains/LockGrain.cs:61-68 | from any state whose list can be written, a committed save that reports failure and the next flush write the list twice |
| AccessDurability.TaintIsInTheHistory | src/SmartLock.Implementation/Grains/LockGrain.cs:65-68 | whether such a save follows can be read from the run's steps alone, and the recorded attempts say the same |
| AccessDurability.AccessesAreConserved | src/SmartLock.Implementation/Grains/LockGrain.cs:33-68 | in every run the new rows and the accesses not reached are together the accesses made and the copies |
| AccessDurability.AtLeastOnce | src/SmartLock.Implementation/Grains/LockGrain.cs:61-68 | every access is in the table or not reached, for distinct accesses not both, and a row that is there more often than it was accessed is a copy |
| AccessDurability.NothingIsCopiedIff | src/SmartLock.Implementation/Grains/LockGrain.cs:61-68 | an activation writes no entry twice if and only if none of its attempts commits after one that committed and reported failure |
| AccessDurability.FailedBatchesAreRetried | src/SmartLock.Implementation/Grains/LockGrain.cs:61-68 | a save that was not removed is contained, from the front, in the next save of the activation |
| AccessDurability.UnreachedIsInMemory | src/SmartLock.Implementation/Grains/LockGrain.cs:61-68 | the accesses a live activation has not reached are at the end of its list; without a save that committed and reported failure they are the list, less a committed batch |
| AccessDurability.DeactivationLosesTheTail | src/SmartLock.Implementation/Grains/LockGrain.cs:12-13 | after a deactivation, whatever follows, the accesses it had reached are in the table and the others, the end of its list, are not, unless an equal entry was accessed elsewhere |
| AccessDurability.NoCommitPassesTheReach | src/SmartLock.Implementation/Grains/LockGrain.cs:61-66 | no save of an activation ever wrote an access beyond those it reached |
| AccessDurability.ClosedEpochsStay | src/SmartLock.Implementation/Grains/LockGrain.cs:12-13 | once an activation has ended nothing later changes what is recorded of it |
| AccessDurability.LaterActivationsStartAfresh | src/SmartLock.Implementation/Grains/LockGrain.cs:40-54 | the activations that follow hold exactly the accesses made since, and none from before |
| LateCommits.LateRunsAreRuns | src/SmartLock.Implementation/Grains/LockGrain.cs:56-69 | no grain notices a late commit: without them a run is a run of the access log |
| LateCommits.LateRowsAreExtra | src/SmartLock.Implementation/Grains/LockGrain.cs:65-66 | late commits only add to a lock's rows, exactly their own batches |
| LateCommits.LateLogIsAtLeastOnce | src/SmartLock.Implementation/Grains/LockGrain.cs:61-68 | with saves that commit after a failure or after their activation ended, every row is still an access, every access is in the table or not reached, and a surplus copy was written after a false failure or late |
| LateCommits.LateCommitsShowIff | src/SmartLock.Implementation/Grains/LockGrain.cs:65-66 | a lock's rows are those without late commits if and only if none of these has an entry of the lock |
| LateCommits.LateCommitWritesTheBatch | src/SmartLock.Implementation/Grains/LockGrain.cs:65-66 | a batch of known users that a failure or a deactivation leaves uncommitted can commit late, and writes exactly its entries |
| LateCommits.LateBatchesAreConserved | src/SmartLock.Implementation/Grains/LockGrain.cs:65-66 | every batch left behind commits late once or is still with the store |
| AccessTheorems.WaitingKeepsTheFlight | src/SmartLock.Implementation/Grains/LockGrain.cs:61-66 | while a flush waits, requests only extend its list and other grains touch none of its rows |
| AccessTheorems.FlushCommitsIff | src/SmartLock.Implementation/Data/Configuration/LockAccessHistoryConfiguration.cs:11-23 | whatever arrives while a flush waits, it can commit if and only if every entry present at its tick has a known requester and no or a known employee; the commit writes exactly these and the return leaves exactly the arrivals |
| AccessTheorems.FlushCommits | src/SmartLock.Implementation/Grains/LockGrain.cs:58-66 | a flush of entries of known users can commit whatever arrives, and makes durable exactly the entries present at its tick |
| AccessTheorems.AccessIsLogged | src/SmartLock.Implementation/Grains/LockGrain.cs:26-68 | activation, request, tick, commit and return are a run that adds the one row and sends the one message, decided by the database's roles, and leaves nothing in memory |
| AccessTheorems.RemovalDropsTheBatch | src/SmartLock.Implementation/Grains/LockGrain.cs:61-68 | the removal drops exactly the saved batch however many requests arrived during the save |
| AccessTheorems.HeadOfLineBlocking | src/SmartLock.Implementation/Grains/LockGrain.cs:58-68 | once a refused entry is in the list, the lock's rows grow by at most the one batch already in flight without it |
| AccessTheorems.StaysRefused | src/SmartLock.Implementation/Data/Configuration/LockAccessHistoryConfiguration.cs:16-23 | an entry without requester is refused for ever, one naming an unknown user until that user is added |
| AccessTheorems.UsersAreTheAdded | src/SmartLock.Implementation/Data/Configuration/LockAccessHistoryConfiguration.cs:16-23 | the users entries may name are those from the start and those added |
| AccessTheorems.AddedRowsSatisfyTheKeys | src/SmartLock.Implementation/Data/Configuration/LockAccessHistoryConfiguration.cs:11-23 | every row satisfies the table's keys in every run |
| AccessTheorems.RepliesMessagesAndHistoryAgree | src/SmartLock.Implementation/Grains/LockGrain.cs:26-37 | replies, messages and the results of what is in the table and then of what is not are the same list; a missing lock denies and leaves no trace |
| AccessTheorems.TableOnlyGrows | src/SmartLock.Implementation/Grains/LockGrain.cs:65-66 | the table of a run's start is a prefix of the table at its end |
| AccessHistory.PagesAreAPrefix | src/SmartLock.Implementation/Services/LockService.cs:20-23 | the first pages in order are the first rows in order |
| AccessHistory.PagesTile | src/SmartLock.Implementation/Services/LockService.cs:20-23 | the pages up to the rounded-up count are the lock's whole history |
| AccessHistory.PageSizes | src/SmartLock.Implementation/Services/LockService.cs:22-23 | exactly which pages are full and which are empty |
| AccessHistory.RowIsOnOnePage | src/SmartLock.Implementation/Services/LockService.cs:22-23 | each row is on exactly one page, at its offset |
| AccessHistory.FullPagesAreStable | src/SmartLock.Implementation/Services/LockService.cs:21-23 | pages only grow over runs, and a full page never changes again |
| AccessHistory.ServiceIsExactIff | src/SmartLock.Implementation/Services/LockService.cs:20-23 | the service returns the page asked for if and only if the offset fits in 32 bits or wraps past the end |
| AccessHistory.WholeHistoryIsReadable | src/SmartLock.Implementation/Services/LockService.cs:20-23 | fetching page after page at any size returns the whole history without ever meeting the 32-bit limit |
| AccessHistory.ReaderSeesTheLog | src/SmartLock.Implementation/Services/LockService.cs:16-33 | the fetched pages put together are the rows, and they are the accesses reached, in order, if and only if no save commits after one of its activation that committed and reported failure |
| AccessHistory.WrapIs | src/SmartLock.Implementation/Services/LockService.cs:22 | unchecked 32-bit arithmetic gives the one 32-bit number that differs by a multiple of 2 to the 32 |
| AccessHistory.OffsetBoundIsTight | src/SmartLock.WebApi/Controllers/V1/LocksController.cs:61-67 | the offset is exact at every admissible size if and only if the page is at most 21474837 |
| AccessHistory.OffsetCanWrapToTheFirstPage | src/SmartLock.Implementation/Services/LockService.cs:22 | a page and size for which the wrapped offset returns the first page again |
| AccessHistory.GetHistory | src/SmartLock.WebApi/Controllers/V1/LocksController.cs:55-68 | after clamping, every page request up to the bound returns the mathematical page |
| Claims.IssueClaims | src/SmartLock.Implementation/Jwt/JwtTokenGenerator.cs:19-28 | a token's claims read back as the user id and the roles in order |
| Claims.FirstValueIsHead | src/SmartLock.WebApi/Extensions/ClaimsPrincipalExtensions.cs:7-19 | the first-match reader agrees with the filtering reader |
| Claims.ValuesAreTheClaims | src/SmartLock.WebApi/Extensions/ClaimsPrincipalExtensions.cs:7-19 | a value is read under a type if and only if the token has that claim |
| Claims.HttpRequestIsMadeIff | src/SmartLock.WebApi/Controllers/V1/LocksController.cs:35-44 | the action calls the grain, with the token's user and roles, if and only if the employee id has a character other than white space and at most 64 UTF-16 units |
| Claims.CacheIsFromActivation | src/SmartLock.Implementation/Grains/LockGrain.cs:46-48 | throughout an activation the cached lock has the roles the database had when it started, whatever is edited meanwhile |
| Claims.EditsDecideTheNextActivation | src/SmartLock.Implementation/Grains/LockGrain.cs:29-48 | after a role edit, and no later one, the next activation decides by the edited roles |
| Claims.EndToEndDecision | src/SmartLock.WebApi/Controllers/V1/LocksController.cs:35-44 | on both entry paths a request is granted exactly when the token's roles meet those in the database at activation, and entry, reply and message say so in the token user's name; a missing lock denies and leaves no trace |
| Claims.DecisionIsMonotone | src/SmartLock.Implementation/Grains/LockGrain.cs:29-31 | more roles never turn a grant into a denial, and order does not matter |
| Broker.TracesAreRuns | src/SmartLock.WebApi/HostedServices/MqttHostedService.cs:99-121 | whatever the gateway does to the grains is a run of the access log |
| Broker.PublishesAreConserved | src/SmartLock.WebApi/HostedServices/MqttHostedService.cs:52-121 | in every trace the publishes pending and intercepted are those pending before, those that arrived, and one reply for each message the system sent |
| Broker.ServedCallReplies | src/SmartLock.Implementation/Grains/LockGrain.cs:26-37 | serving a call, posted or intercepted, adds one entry and one reply on the lock's topic with the decision of the loaded roles, and for a missing lock neither |
| Broker.PublishIsServedOrWaits | src/SmartLock.WebApi/HostedServices/MqttHostedService.cs:99-121 | from its arrival on, whatever else happens, a publish with a readable token from a lock is pending, or its call waits, or its call was served |
| Broker.CallsComeFromOutside | src/SmartLock.WebApi/HostedServices/MqttHostedService.cs:99-121 | every call is posted or comes from an intercepted publish of a lock with a readable token |
| Broker.WorkCanBeFinished | src/SmartLock.WebApi/HostedServices/MqttHostedService.cs:99-121 | from every hub, interceptions and services alone can finish all pending work and all it causes |
| Broker.PublishIsAnswered | src/SmartLock.WebApi/HostedServices/MqttHostedService.cs:99-131 | whenever it is served, its access is buffered in the token user's name, the one injected reply with the same result goes to the lock's topic, and no other call is touched |
| Broker.CallsAreConserved | src/SmartLock.WebApi/HostedServices/MqttHostedService.cs:99-121 | in every trace the calls served and waiting are the calls there were and the calls made by posts and interceptions |
| Broker.RequestsAreTheServedCalls | src/SmartLock.WebApi/HostedServices/MqttHostedService.cs:112-113 | the grains see exactly the served calls as requests, in order |
| Broker.GuardedIff | src/SmartLock.WebApi/HostedServices/MqttHostedService.cs:64-118 | replies are kept out by a sender id that is not a GUID or by having no token to read; each alone is enough, and without both some reply is taken |
| Broker.EveryTurnBurnsFuel | src/SmartLock.WebApi/HostedServices/MqttHostedService.cs:99-121 | each interception and each served call strictly decreases a measure only the outside can raise |
| Broker.CascadeIsBounded | src/SmartLock.WebApi/HostedServices/MqttHostedService.cs:64-65 | in any order of events, at most one grain request per external publish or post, one injected publish per request, and a bounded number of turns |
| Broker.UnguardedRepliesLoop | src/SmartLock.WebApi/HostedServices/MqttHostedService.cs:64-113 | what the two guards prevent: in a gateway with neither, one publish causes any number of grain requests |
| Selectors.UnescapeInverts | src/SmartLock.WebApi/wwwroot/lib/jquery-validation-unobtrusive/jquery.validate.unobtrusive.js:39-42 | the selector engine's unescaping inverts escaping for every value |
| Selectors.EscapedIff | src/SmartLock.WebApi/wwwroot/lib/jquery-validation-unobtrusive/jquery.validate.unobtrusive.js:39-42 | a character is escaped if and only if the expression lists it |
| Selectors.EscapeIsInjective | src/SmartLock.WebApi/wwwroot/lib/jquery-validation-unobtrusive/jquery.validate.unobtrusive.js:39-42 | different values have different escapes |
| Selectors.EscapeDistributes | src/SmartLock.WebApi/wwwroot/lib/jquery-validation-unobtrusive/jquery.validate.unobtrusive.js:41 | escaping distributes over concatenation |
| Selectors.EscapeLength | src/SmartLock.WebApi/wwwroot/lib/jquery-validation-unobtrusive/jquery.validate.unobtrusive.js:41 | an escape is longer by its special characters and at most twice as long |
| Selectors.MatchStopsAtTheQuote | src/SmartLock.WebApi/wwwroot/lib/jquery/dist/jquery.js:612-614 | the engine's quoted-value match ends exactly at the closing quote, whatever follows |
| Selectors.CssReadsBack | src/SmartLock.WebApi/wwwroot/lib/jquery-validation-unobtrusive/jquery.validate.unobtrusive.js:56 | a CSS Syntax Level 3 string scanner reads the value back if and only if it has no newline, carriage return, form feed or NUL |
| Selectors.SelectorTestsTheName | src/SmartLock.WebApi/wwwroot/lib/jquery-validation-unobtrusive/jquery.validate.unobtrusive.js:380 | the built selector tests for exactly the given name |
| Selectors.UnescapedSelectorTestsIff | src/SmartLock.WebApi/wwwroot/lib/jquery-validation-unobtrusive/jquery.validate.unobtrusive.js:39-42 | without escaping the selector tests for the given name if and only if the name has no quote and no backslash but before a form feed |
| Selectors.LookupFindsTheFirst | src/SmartLock.WebApi/wwwroot/lib/jquery-validation-unobtrusive/jquery.validate.unobtrusive.js:380 | the lookup finds the first input of exactly that name, and nothing if there is none, unless it is put to a single input and the browser misreads a NUL |
| Selectors.LookupIsRightIff | src/SmartLock.WebApi/wwwroot/lib/jquery/dist/jquery.js:3064-3078 | the lookup is right for every list of inputs if and only if the name has no NUL or has a line break |
| Selectors.CssReading | src/SmartLock.WebApi/wwwroot/lib/jquery-validation-unobtrusive/jquery.validate.unobtrusive.js:39-42 | the CSS scanner reads an escaped value with U+FFFD for every NUL, and reads no string if it has a line break |
| Selectors.NumericEscapesAreRead | src/SmartLock.WebApi/wwwroot/lib/jquery/dist/jquery.js:674-690 | both readers take a backslash, up to six hex digits and a space as the character of that number |
| FieldLists.RemoveEdgesIsTrim | src/SmartLock.WebApi/wwwroot/lib/jquery-validation-unobtrusive/jquery.validate.unobtrusive.js:36 | the trimming expression, replaced match by match, removes exactly the white space at both ends |
| FieldLists.SplitAndTrimMeaning | src/SmartLock.WebApi/wwwroot/lib/jquery-validation-unobtrusive/jquery.validate.unobtrusive.js:35-37 | the two regular expressions compute, for every string, the pieces between commas, each trimmed |
| FieldLists.SpaceIsDroppedIff | src/SmartLock.WebApi/wwwroot/lib/jquery-validation-unobtrusive/jquery.validate.unobtrusive.js:35-37 | a character beside a comma is dropped if and only if it is one of ECMAScript's 25 white-space characters and line terminators |
| FieldLists.TokensAreClean | src/SmartLock.WebApi/wwwroot/lib/jquery-validation-unobtrusive/jquery.validate.unobtrusive.js:35-37 | one token more than commas, and no token has a comma or one of the listed white-space characters at an end |
| FieldLists.SplittingInvertsJoining | src/SmartLock.WebApi/wwwroot/lib/jquery-validation-unobtrusive/jquery.validate.unobtrusive.js:36 | clean tokens joined with commas in any of the listed white space are recovered |
| FieldLists.SplittingIsStable | src/SmartLock.WebApi/wwwroot/lib/jquery-validation-unobtrusive/jquery.validate.unobtrusive.js:36 | joining the tokens of any string and splitting again gives the same tokens |
| ModelNames.PrefixIsTheSplit | src/SmartLock.WebApi/wwwroot/lib/jquery-validation-unobtrusive/jquery.validate.unobtrusive.js:44-46 | the model prefix is the one way to cut a name into a dotted prefix and a dot-free field |
| ModelNames.RelativeNameIsSiblingIff | src/SmartLock.WebApi/wwwroot/lib/jquery-validation-unobtrusive/jquery.validate.unobtrusive.js:44-53 | a relative name resolves to the sibling if the prefix has no replacement pattern, and only then for siblings without dollar signs |
| ModelNames.PatternsLoseDollars | src/SmartLock.WebApi/wwwroot/lib/jquery-validation-unobtrusive/jquery.validate.unobtrusive.js:50 | every replacement pattern uses up a dollar sign |
| ModelNames.PatternsMean | src/SmartLock.WebApi/wwwroot/lib/jquery-validation-unobtrusive/jquery.validate.unobtrusive.js:50 | what each of the four replacement patterns becomes |
| ModelNames.DoubledDollarIsHalved | src/SmartLock.WebApi/wwwroot/lib/jquery-validation-unobtrusive/jquery.validate.unobtrusive.js:50 | a prefix that is not kept |
| Adapters.RuleIsThereIff | src/SmartLock.WebApi/wwwroot/lib/jquery-validation-unobtrusive/jquery.validate.unobtrusive.js:29 | a rule is there if and only if some adapter set it |
| Adapters.LastWriteWins | src/SmartLock.WebApi/wwwroot/lib/jquery-validation-unobtrusive/jquery.validate.unobtrusive.js:29 | a rule has the value of the last adapter that set it |
| Adapters.MessageIsThereIff | src/SmartLock.WebApi/wwwroot/lib/jquery-validation-unobtrusive/jquery.validate.unobtrusive.js:30-32 | a message is there if and only if some adapter set its rule with a non-empty one |
| Adapters.LastMessageStays | src/SmartLock.WebApi/wwwroot/lib/jquery-validation-unobtrusive/jquery.validate.unobtrusive.js:30-32 | the last non-empty message of a rule stays |
| Adapters.MessageKeysAreRuleKeys | src/SmartLock.WebApi/wwwroot/lib/jquery-validation-unobtrusive/jquery.validate.unobtrusive.js:28-33 | messages are only for rules that were set, and for all of them exactly when each was once set with a message |
| Adapters.MessageIsOfLastWriterIff | src/SmartLock.WebApi/wwwroot/lib/jquery-validation-unobtrusive/jquery.validate.unobtrusive.js:28-33 | a rule's message is its last setter's unless that one is empty and an earlier one is left over |
| Unobtrusive.Unobtrusive.AddBool | src/SmartLock.WebApi/wwwroot/lib/jquery-validation-unobtrusive/jquery.validate.unobtrusive.js:278-289 | the adapter is appended, its rule named after it by default |
| Unobtrusive.Unobtrusive.AddMinMax | src/SmartLock.WebApi/wwwroot/lib/jquery-validation-unobtrusive/jquery.validate.unobtrusive.js:291-322 | the adapter is appended with its declared parameters and its three rule names |
| Unobtrusive.Unobtrusive.AddSingleVal | src/SmartLock.WebApi/wwwroot/lib/jquery-validation-unobtrusive/jquery.validate.unobtrusive.js:324-337 | the adapter is appended with its declared parameter and its rule name |
| Unobtrusive.Unobtrusive.AddBuiltIns | src/SmartLock.WebApi/wwwroot/lib/jquery-validation-unobtrusive/jquery.validate.unobtrusive.js:362-428 | the registration calls leave exactly the built-in table, with and without an `extension` method |
| Unobtrusive.Unobtrusive.SetValidationValues | src/SmartLock.WebApi/wwwroot/lib/jquery-validation-unobtrusive/jquery.validate.unobtrusive.js:28-33 | one rule and, if not empty, one message are set; nothing else changes |
| Unobtrusive.Unobtrusive.Adapt | src/SmartLock.WebApi/wwwroot/lib/jquery-validation-unobtrusive/jquery.validate.unobtrusive.js:286-428 | each built-in function makes exactly its assignments, and `equalto` without `other` throws before any |
| Unobtrusive.Unobtrusive.ParseElement | src/SmartLock.WebApi/wwwroot/lib/jquery-validation-unobtrusive/jquery.validate.unobtrusive.js:177-226 | the element's rules and messages are replaced by those of its adapters in order, partially if one throws |
| Unobtrusive.Unobtrusive.Parse | src/SmartLock.WebApi/wwwroot/lib/jquery-validation-unobtrusive/jquery.validate.unobtrusive.js:245-247 | every marked element is parsed in order up to the first that throws |
| Unobtrusive.LastElementWins | src/SmartLock.WebApi/wwwroot/lib/jquery-validation-unobtrusive/jquery.validate.unobtrusive.js:195-221 | a name in a form has the rules and messages of its last parsed element there |
| Unobtrusive.UnparsedNamesStay | src/SmartLock.WebApi/wwwroot/lib/jquery-validation-unobtrusive/jquery.validate.unobtrusive.js:195-196 | a name with no parsed element in a form keeps what it had |
| ParsingTheorems.ParsingIsIdempotent | src/SmartLock.WebApi/wwwroot/lib/jquery-validation-unobtrusive/jquery.validate.unobtrusive.js:195-221 | parsing the same elements again changes nothing |
| Unobtrusive.AllMarkedAreVisited | src/SmartLock.WebApi/wwwroot/lib/jquery-validation-unobtrusive/jquery.validate.unobtrusive.js:245-247 | if nothing throws, exactly the marked elements are parsed |
| BuiltInRules.BuiltInRulesAre | src/SmartLock.WebApi/wwwroot/lib/jquery-validation-unobtrusive/jquery.validate.unobtrusive.js:177-428 | under the built-in adapters an element has exactly the rules, with the values, that its attributes ask for by the literal reference table |
| BuiltInRules.BuiltInsThrowIff | src/SmartLock.WebApi/wwwroot/lib/jquery-validation-unobtrusive/jquery.validate.unobtrusive.js:376-383 | the built-in adapters throw if and only if `equalto` is asked for without its `other` |
| BuiltInRules.RulesAfterAThrow | src/SmartLock.WebApi/wwwroot/lib/jquery-validation-unobtrusive/jquery.validate.unobtrusive.js:195-221 | after a throw exactly the rules of the adapters before `equalto` are there |
| BuiltInRules.RequiredIff | src/SmartLock.WebApi/wwwroot/lib/jquery-validation-unobtrusive/jquery.validate.unobtrusive.js:384-389 | an element is required if and only if it has the attribute and is no checkbox, with the attribute's message if that is not empty |
| BuiltInRules.EqualToIs | src/SmartLock.WebApi/wwwroot/lib/jquery-validation-unobtrusive/jquery.validate.unobtrusive.js:376-383 | the target of `equalTo` is the first input of the element's own form with the absolute name given, or with the sibling's name |
| BuiltInRules.RemoteIs | src/SmartLock.WebApi/wwwroot/lib/jquery-validation-unobtrusive/jquery.validate.unobtrusive.js:390-411 | the `remote` rule has the given url and verb, `GET` by default, and the element's own name if no fields are listed |
| BuiltInRules.ParsedPageHas | src/SmartLock.WebApi/wwwroot/lib/jquery-validation-unobtrusive/jquery.validate.unobtrusive.js:177-247 | after parsing a page, a name in a form has exactly the rules its last marked element's attributes ask for |
| ParsingTheorems.BuiltInKeys | src/SmartLock.WebApi/wwwroot/lib/jquery-validation-unobtrusive/jquery.validate.unobtrusive.js:198-221 | under the built-in adapters messages are for rules other than `__dummy__`, and for all of them exactly when each was once set with a message |
| ParsingTheorems.NonEmptyMessagesAreKept | src/SmartLock.WebApi/wwwroot/lib/jquery-validation-unobtrusive/jquery.validate.unobtrusive.js:198-221 | with non-empty message attributes the rules are the messages' and `__dummy__` |
| ParsingTheorems.BoundRulesAccept | src/SmartLock.WebApi/wwwroot/lib/jquery-validation/dist/jquery.validate.js:1299-1448 | what the rules of the four bound adapters accept: nothing with an unnamed rule, the texts on the right side in string order for a single bound of `range`, and otherwise the texts within the stated bounds; an empty text passes every named rule |
| ParsingTheorems.BoundRulesMeanTheBoundsIff | src/SmartLock.WebApi/wwwroot/lib/jquery-validation-unobtrusive/jquery.validate.unobtrusive.js:374-375 | for every element the rules accept exactly the texts within the stated bounds if and only if the bounds call for no unnamed rule and are not a single bound of `range` |
| ParsingTheorems.TenIsBelowFive | src/SmartLock.WebApi/wwwroot/lib/jquery-validation/dist/jquery.validate.js:1436-1438 | with 5 as the only minimum of `range` the text 10 is within the bound and rejected |
| Utf16.EncodingRoundTrips | src/SmartLock.WebApi/wwwroot/lib/jquery-validation/dist/jquery.validate.js:1058-1070 | text is sixteen-bit units from which it can be read back |
| Utf16.UnitsAreCounted | src/SmartLock.WebApi/wwwroot/lib/jquery-validation/dist/jquery.validate.js:1058-1070 | a string's length is its characters, those beyond the first plane counted twice |
| Utf16.OrderIsLexicographic | src/SmartLock.WebApi/wwwroot/lib/jquery-validation/dist/jquery.validate.js:1436-1443 | strings are compared by their first differing unit, a prefix coming first |
| ParsingTheorems.PasswordRulesAreTheGiven | src/SmartLock.WebApi/wwwroot/lib/jquery-validation-unobtrusive/jquery.validate.unobtrusive.js:415-425 | the password adapter sets each of its rules exactly when its attribute is given and not empty |
| ParsingTheorems.EqualToTargetsTheSibling | src/SmartLock.WebApi/wwwroot/lib/jquery-validation-unobtrusive/jquery.validate.unobtrusive.js:376-383 | `equalto` on a relative name targets the first input named exactly as the sibling, but for a NUL in a form with a single input |
| ParsingTheorems.RemoteFieldsAreTheListed | src/SmartLock.WebApi/wwwroot/lib/jquery-validation-unobtrusive/jquery.validate.unobtrusive.js:390-399 | a `remote` field list in any spacing names exactly the fields listed: absolute names as they are and, under a prefix without replacement pattern, relative ones as siblings |
| ParsingTheorems.SingleValReadsIff | src/SmartLock.WebApi/wwwroot/lib/jquery-validation-unobtrusive/jquery.validate.unobtrusive.js:334-335 | a single-value adapter reads an attribute if and only if it was registered with a non-empty name |
| ParsingTheorems.MinMaxReadsTheDeclaredIff | src/SmartLock.WebApi/wwwroot/lib/jquery-validation-unobtrusive/jquery.validate.unobtrusive.js:308-320 | a min-max adapter sets, on every element, the rule of the bounds in the attributes it declares if and only if each name is left out, empty or the default |

## Left out

- Orleans, Entity Framework, SQL Server and MQTTnet themselves: they appear as the step assumptions above.
- Signing and validating tokens, passwords and dynamic authorization: a token is its claim list.
- GUID parsing, JSON and text encoding: parameters of the gateway. Sender and receiver of a message are its topic.
- Rows or users being deleted.
- The clock, the five-second period and the batching of the timer: a tick may happen at any time.
- The names shown in the history, the exception middleware, hosting, pages and styles.
- The browser effects of the script: error placement, reset, attaching validation, and the value a `remote` field sends.
- AccessDurability.ExactlyOnce: the only-if half is for runs whose accesses on the lock are distinct, because equal entries make a repeated write and a repeated access the same rows; `RowsAreWhatWasReached` has no such condition.
- LateCommits.LateLogIsAtLeastOnce: speaks of one lock's rows as a multiset, because a late commit may land anywhere after the commits that overtook it.
- The validator's normalizers, its HTML5 attribute rules, the conversion of text to numbers itself, and the bound
  rules on select lists and check boxes, whose length is the number of selected options.
- The `regex` and `nonalphamin` validation methods, adapters added by callers, and elements that are not form controls.
- Element or rule names that are properties of every JavaScript object, such as `__proto__`.
- Selectors.EscapeLength: counts characters, not UTF-16 units, which for the escaped ASCII characters is the same growth.
- What the selector engine makes of numeric escapes of surrogates and of values beyond Unicode, which are no characters.
- Forms in `Unobtrusive.Parse` that have marked elements only outside the parsed part, which only attach validation.
