# A verified model of the memento server's self-contained algorithms

The memento MCP server keeps fragments of memory in PostgreSQL, queues and sessions in Redis, and answers tool calls
over HTTP. Between those libraries it carries algorithms and state machines of its own. This project models those of
fifteen source files in Dafny, with what other code does to the same rows, and proves what they are for.
`dafny verify dfyconfig.toml` checks all of it.

Code that updates variables, maps, lists or records in place is modelled by methods and classes with the same loops and
branches, each proved to compute a specification function of its old state. The properties are then lemmas about those
functions, most of them over whole runs of events in any order. Clocks, random identifiers, hashes, regular expressions
of schemas, Unicode case folding and the fate of a Redis command are parameters, so every result holds for all of them.

| modules | what they model |
|---|---|
| `ImportGraph`, `TarjanInvariant`, `TarjanClose`, `ImportCycles`, `Sorting` | the import cycle search of `scripts/import-cycles.js` |
| `SqlLexemes`, `SqlStripper`, `SqlPieces`, `SqlIdempotence`, `SqlPositions`, `SqlRoles`, `SqlMeaning` | the comment and string stripper of `scripts/lint-migrations.js` |
| `AdminAuthz`, `AdminAuthzLaws`, `AdminDecision`, `AdminShadow`, `ScopeFilter`, `ScopeFilterLaws`, `ScopeFilterInputs`, `AdminQuery` | the admin decision, its SQL condition, and the two together |
| `BitArithmetic`, `Base32`, `Base32Laws`, `CharClasses` | the base32 codec on 32-bit shifts |
| `RateLimiter`, `RateLimiterLaws` | the sliding window limiter |
| `LoginGuard`, `LoginGuardLaws`, `LoginOverlap` | the keyed login backoff, for attempts one by one and overlapping |
| `LogTail`, `LogMeaning` | reading the end of a log file backwards, and parsing it |
| `ToolArgs`, `ToolArgsLaws` | the recursive checker of tool arguments |
| `RedisQueue`, `RedisQueueLaws`, `BatchWorker`, `BatchRetries` | the reliable queue and the worker on it |
| `Sessions`, `SessionStore`, `McpSessions`, `McpHandler`, `SessionRuns` | session records in two stores, what the request handlers do to them, and requests interleaving wherever they await something |
| `SessionSteps`, `McpSteps`, `RotationSteps`, `SessionLaws`, `SessionContexts`, `SessionRevival`, `SessionReturns`, `SegmentLaws` | what each step does to the stores, rotation, where a session's context comes from, when it can be found again, and how often its segments are reflected |
| `ReviewStore`, `ReviewLaws`, `ReviewAnswers`, `ReviewAnchors` | review decisions with row locks and idempotency keys, beside the other writers of the rows |
| `OAuth`, `OAuthLaws`, `OAuthAnswers`, `OAuthOverlap` | authorization codes, tokens and cleanup, and refreshes that overlap |
| `HashLimiter`, `HashLimiterLaws` | the bounded password hash runner |
| `Options` | optional values and results |

## Where the code differs from what is written about it

- Stripping is documented to keep line numbers. It does exactly when no unclosed literal is a lone quote at the end of
  its level or ends in a line feed (`SqlPositions.LinesKeptIff`). `SqlPositions.LineNumberLost` gives an input whose
  later lines move up by one.
- An allowed decision never admits a row no binding justifies, but it can admit none: when a workspace list or scope
  row applies, the capability is held globally, and a binding at the target grants it in a mode wider than every global
  one (`AdminShadow.ScopeUnlessShadowed`). `AdminShadow.ShadowedAdmitsNothing` is an auditor who is also reviewer of one
  group and has one scope row. That is an input of the exported `decide`: no caller under `lib` sets scope rows yet, and
  the principal of an API key has a single, global binding.
- `rotateSession` is meant to leave nothing of the old session. Between its deletion from Redis and its closing in
  memory other requests run, and one that validates the old session, or carries its record already, saves it again:
  Redis then has it after a rotation that succeeded (`SessionReturns.OldSessionSurvives`). The old session can be found
  again in some way on exactly when a store holds it or a request under way carries it (`SessionReturns.OldReturnsIff`).
- A validation is documented to check a session's lifetime. It does for a record in memory
  (`SessionSteps.ValidateInMemory`), but a copy fetched from Redis gets a new lifetime before the check: its own expiry
  is never looked at (`SessionSteps.CopyRestored`, `SessionSteps.CopyExpiryIgnored`), and only Redis's expiry of keys,
  which is not modelled, keeps it from being taken up again.
- The identifier of a session that is gone is not spent: an authenticated request that presents it is given a new
  session under it, in the context of its own credential, unless the policy refuses the identifier for its form
  (`SessionReturns.AlwaysRecoverable`). Identities are compared only with a copy in Redis, which a rotation has deleted.
  `SessionReturns.ReturnsIff` says by what steps an identifier comes back, and `SessionReturns.NeverFoundIffGone` when
  it does not without such a recovery.
- A session's context is not that of its creation for good: a login that takes it up again, the checks of ordinary
  requests and a recovery give it another one (`SessionContexts.StepContext`, `SessionContexts.RecordFollowsGiven`).
- A segment is handed to reflection once by the calls that end it on one record, and again whenever its session is
  found idle, closed, or reflected by hand, and by calls on other copies of the record. `SegmentLaws.HandedExactly`
  counts the hand-overs and `SegmentLaws.HandedAgainIff` says when there is more than one; `SegmentLaws.IdleThenEnded`,
  `SegmentLaws.HandedTwice` and `SegmentLaws.EndedOnTwo` are three ways.
- A review is meant to hold an anchor request back until the decision. An insert of the same content as an anchor, and
  an amendment that passed the gate before the fragment was put under review, set it all the same
  (`ReviewAnchors.HeldAnchorIff`, `ReviewAnchors.InsertedAnchor`, `ReviewAnchors.OvertakenAnchor`).
- A rejection ends a fragment at the time of the decision, but a split that finishes later moves that end
  (`ReviewAnchors.EndDiffersIff`, `ReviewAnchors.EndMoved`).
- A refresh token is replaced when it is used, yet two refreshes that look it up before either is answered yield a pair
  each (`OAuthOverlap.SpentTwice`). A spent token can yield another pair exactly while a refresh of it still waits
  (`OAuthOverlap.AnotherPairIff`).
- The login guard is checked before the password is and records after it, so attempts that overlap pass together
  (`LoginOverlap.AllAtOnce`); the bound per minute grows by the number in flight
  (`LoginOverlap.OverlappingFailuresPerMinute`).
- `peek` promises what `allow` would answer. `RateLimiterLaws.PeekIff` shows that it does unless the key is unknown and
  `maxRequests` is not positive, `RateLimiterLaws.PeekMisleads` that it does not then.
- The comment at `lib/redis.js:622` says recovered items are handled before waiting ones. They are put before them in
  the list, and the consumers pop from its other end: a recovered item is next exactly when nothing was waiting
  (`RedisQueueLaws.RecoveredIsNextIff`, `RedisQueueLaws.WaitingOvertakes`).
- A reliable pop whose item does not parse reports nothing, yet the item has moved to the processing list
  (`RedisQueue.Queue.PopReliable`).
- An unknown argument is accepted where its name is one that every object inherits, because the schema's properties are
  looked up by name; a required name of that kind is never reported. `ToolArgsLaws.PassesForInheritedIff` says which
  faulty calls pass for it, `ToolArgsLaws.InheritedNamesPass` gives two.

## Model

| member | source | states |
|---|---|---|
| ImportCycles.FindCycles | scripts/import-cycles.js:112-147 | for every finite graph it terminates and lists exactly the maximal sets of at least two files that reach each other by the imports counted, each once, disjoint, sorted by code unit, in the order of their first files; without dynamic imports that is what the search of the graph with its dynamic entries dropped lists |
| ImportCycles.Search.Visit | scripts/import-cycles.js:119-144 | a visit keeps the search invariant, indexes its file, leaves the stack below alone, and its low value bounds every import from what it left on the stack into that stack |
| ImportCycles.Search.Follow | scripts/import-cycles.js:125-133 | one import is accounted for: skipped if it is dynamic and those do not count, visited, lowered to the index of a file on the stack, or already popped |
| ImportCycles.Search.Finish | scripts/import-cycles.js:134-143 | ending a visit keeps the invariant whether or not a component is popped |
| ImportCycles.Search.PopComponent | scripts/import-cycles.js:135-142 | the do-while loop takes exactly the stack from the head of the component on, and reports it when it has more than one file |
| ImportCycles.Search.VisitAll | scripts/import-cycles.js:145 | after the outer loop every importing file is indexed and no visit is open |
| TarjanClose.ComponentIsClass | scripts/import-cycles.js:134-143 | what stands above a file that reaches nothing lower, all of it reaching the file, is a class of mutual reachability |
| TarjanClose.PopKeeps | scripts/import-cycles.js:134-143 | popping and reporting a component keeps the invariant: reported sets stay sound, complete and disjoint |
| TarjanClose.StayKeeps | scripts/import-cycles.js:134 | when low and index differ the file stays and still reaches an unfinished file |
| TarjanInvariant.OpenKeeps | scripts/import-cycles.js:120-124 | opening a visit keeps the invariant |
| TarjanInvariant.FollowTree | scripts/import-cycles.js:127-129 | lowering to the low value of a visited import keeps low attained and bounding |
| TarjanInvariant.FollowBack | scripts/import-cycles.js:130-131 | lowering to the index of an import on the stack keeps low attained and bounding |
| ImportCycles.ReportMissesNone | scripts/import-cycles.js:145 | once all files are indexed no import cycle is missing from the report |
| ImportGraph.SuccMeaning | scripts/import-cycles.js:125-126 | a file leads to another exactly if it has an entry for it that is static, or any entry while dynamic ones count |
| ImportGraph.StaticCycles | scripts/import-cycles.js:126 | the cycles found without dynamic imports are exactly those of the graph from which the dynamic entries are dropped |
| ImportGraph.StaticCycleInsideDynamic | scripts/import-cycles.js:126 | every cycle of static imports lies inside one cycle of static and dynamic imports |
| Sorting.SortSorted | scripts/import-cycles.js:142 | the realised sort orders by any total preorder |
| Sorting.StringLeMeaning | scripts/import-cycles.js:142 | texts are ordered by code unit: a prefix comes first, otherwise the first difference decides |
| SqlStripper.StripSqlComments | scripts/lint-migrations.js:130-166 | the loop computes the level-by-level reading `Strip` for every input |
| SqlStripper.StripLexeme | scripts/lint-migrations.js:135-162 | one round of the loop emits what the lexeme at its position stands for and goes on behind it; the laws of `SqlMeaning` say what that is |
| SqlStripper.StripDollar | scripts/lint-migrations.js:153-158 | a dollar body is stripped as a level of its own, between its tags, closed or not |
| SqlStripper.BlockCommentEnd | scripts/lint-migrations.js:169-181 | the depth counter finds the position `BlockStop`, which `BlockStopMeaning` characterises |
| SqlLexemes.BlockStopMeaning | scripts/lint-migrations.js:168-181 | read symbol by symbol, a nested comment ends behind the first closer that makes as many closers as openers, and at the end of the text exactly if none does |
| SqlStripper.QuotedEnd | scripts/lint-migrations.js:184-196 | the scan stops behind the closing quote, doubled quotes skipped, or at the end |
| SqlLexemes.QuoteClosesMeaning | scripts/lint-migrations.js:183-196 | a literal closes at `n` exactly when what precedes has every quote doubled and no quote follows |
| SqlLexemes.LexDollar | scripts/lint-migrations.js:153-158 | a dollar quote closes at the first later occurrence of its own tag |
| SqlMeaning.AfterExecuteMeaning | scripts/lint-migrations.js:150 | a literal is executed exactly if the output before it ends in the whole word EXECUTE, each letter in either case, and white space |
| SqlMeaning.LiteralKeptOrBlanked | scripts/lint-migrations.js:147-152 | a closed literal keeps its quotes; its content is kept behind EXECUTE and otherwise turned into spaces and line feeds |
| SqlMeaning.OpenLiteralStripped | scripts/lint-migrations.js:147-152 | a literal without a closing quote loses its last character to the quote put behind it |
| SqlMeaning.LineCommentBlanked | scripts/lint-migrations.js:138-142 | a line comment is blanked up to its line feed or the end |
| SqlMeaning.BlockCommentBlanked | scripts/lint-migrations.js:143-146 | a block comment is blanked up to the mark that balances it, or to the end if none does |
| SqlMeaning.DollarBodyStripped | scripts/lint-migrations.js:153-158 | a dollar quote keeps its tags, and its body up to the first recurrence of the tag is stripped by itself |
| SqlMeaning.OpenDollarBodyStripped | scripts/lint-migrations.js:153-158 | without a recurrence the body reaches to the end |
| SqlMeaning.CodeCopied | scripts/lint-migrations.js:159-162 | a character that begins none of these is copied |
| SqlMeaning.LowerCaseExecuteKeeps | scripts/lint-migrations.js:150 | an index statement in a literal behind a lower-case execute stays |
| SqlMeaning.LongerWordBlanks | scripts/lint-migrations.js:150 | a literal behind a longer word that ends in EXECUTE does not |
| SqlPieces.CutMeaning | scripts/lint-migrations.js:130-166 | the pieces a text is cut into make up the text, and what they emit makes up the output |
| SqlPieces.OutputOccurrence | scripts/lint-migrations.js:130-166 | no text without spaces, line feeds and quotes appears in the output that is not in the source |
| SqlIdempotence.Idempotent | scripts/lint-migrations.js:130-166 | stripping twice is stripping once, for every input: unclosed quotes and comments, nested dollar bodies, EXECUTE |
| SqlIdempotence.StripTwice | scripts/lint-migrations.js:130-166 | the same at any level and after any text emitted before |
| SqlPositions.StripNotShorter | scripts/lint-migrations.js:130-166 | stripping never shortens a text |
| SqlPositions.KeptIff | scripts/lint-migrations.js:130-196 | a relation that copies and blanks satisfy relates text and output throughout exactly when it relates the end of every unclosed literal to a quote |
| SqlPositions.LinesKeptIff | scripts/lint-migrations.js:115-166 | line feeds keep their offsets exactly when no unclosed literal is a lone quote or ends in a line feed |
| SqlPositions.OnlyBlankedIff | scripts/lint-migrations.js:115-166 | every character is copied or becomes a space exactly when every unclosed literal ends in a quote |
| SqlPositions.ClosedLiteralsOnlyBlanked | scripts/lint-migrations.js:115-166 | with every literal closed at its level the length stays and characters only become spaces |
| SqlPositions.LineNumbersKept | scripts/lint-migrations.js:215-229 | the line computed for a position of the stripped text is that of the file |
| SqlPositions.LineNumberLost | scripts/lint-migrations.js:116 | an input on which it is not |
| SqlPositions.FixedIffClean | scripts/lint-migrations.js:115-166 | stripping leaves a text alone exactly when it has no comment and only closed literals that are blank or follow EXECUTE |
| SqlPositions.StrippedIsClean | scripts/lint-migrations.js:115-166 | the output has no comment at any level and no literal content but after EXECUTE |
| SqlRoles.ExactlyHiddenBlanked | scripts/lint-migrations.js:115-166 | with every literal closed exactly the comments and the contents of literals are blanked, but for the literals that follow EXECUTE in what was emitted before |
| AdminAuthz.GrantsFor | lib/admin/AdminAuthz.js:93-109 | the loop lists the grants of the bindings: preset, capability, no workspace without a group; and none for an API key whose permissions do not include the capability |
| AdminAuthzLaws.RangeMeaning | lib/admin/AdminAuthz.js:130-155 | a cell is in the range exactly when it comes from a grant's cell and the key list and scope rows admit its workspace |
| AdminAuthzLaws.AllowedIff | lib/admin/AdminAuthz.js:291-332 | off the group path a known capability is allowed exactly when a binding grants it at the target, an API key's permissions include it, it is not denied, and the lists admit the target; for no workspace only when no list applies |
| AdminAuthzLaws.ScopeIsExactlyJustified | lib/admin/AdminAuthz.js:244-256 | a row is in the reported scope exactly when a binding grants the capability in the reported mode and covers it at the target, and the lists admit it, but for the shadowed case; an API key's permissions include the capability |
| AdminShadow.ShadowedIff | lib/admin/AdminAuthz.js:163-165 | the bindings and the mode order alone tell the shadowed case: a list applies, some binding grants globally, and one at the target grants in a mode before every global one |
| AdminShadow.ScopeUnlessShadowed | lib/admin/AdminAuthz.js:244-256 | an allowed decision admits exactly the justified and listed rows at the target, and none at all when the principal is shadowed |
| AdminShadow.ShadowedAdmitsNothing | lib/admin/AdminAuthz.js:244-256 | a principal of two roles is allowed, a row of the target is justified and listed, and the scope holds no row |
| AdminAuthzLaws.ModeIsWidest | lib/admin/AdminAuthz.js:163-165 | no binding at the target grants a wider mode than the reported one |
| AdminAuthzLaws.AllowedHasScope | lib/admin/AdminAuthz.js:330-331 | an allowed decision off the group path reports a mode and a scope |
| AdminDecision.DecisionTable | lib/admin/AdminAuthz.js:291-332 | every decision off the group path: where and why it is refused, in the order of the checks, or allowed |
| AdminDecision.KeyWithinPermissions | lib/admin/AdminAuthz.js:94-95 | an API key is never allowed a capability its permissions do not include, on either path |
| AdminDecision.GroupTable | lib/admin/AdminAuthz.js:320-325 | every decision on the group path: everything for a global binding without lists, else allowed exactly if some binding is for the group |
| AdminDecision.GroupScope | lib/admin/AdminAuthz.js:267-281 | it then lists exactly the groups of those bindings, each once, admits exactly the rows they cover, and reports the widest of their modes |
| AdminDecision.RangeHoldsExactlyCovered | lib/admin/AdminAuthz.js:147-155 | the range an allowed decision reports holds exactly the rows that a binding granting the capability covers and every list admits |
| ScopeFilter.ScopePredicate | lib/admin/ScopeFilter.js:91-101 | only appends to the caller's bindings, and builds the compiled condition or the source's error |
| ScopeFilter.CellPredicate | lib/admin/ScopeFilter.js:68-81 | one cell's condition and the values it binds; none for an empty key list |
| ScopeFilter.LinkScopePredicate | lib/admin/ScopeFilter.js:126-134 | the condition on both ends of a link, over the caller's bindings |
| ScopeFilterLaws.ScopeMeaning | lib/admin/ScopeFilter.js:48-101 | with any values bound before and after, in SQL's three-valued logic, the condition holds of a row exactly when a cell of the range holds its workspace and key |
| ScopeFilterLaws.NoColumnMeaning | lib/admin/ScopeFilter.js:93-98 | without a workspace column only the whole range admits rows |
| ScopeFilterLaws.EachValueUsedOnce | lib/admin/ScopeFilter.js:68-101 | each appended value is used by exactly one placeholder and no earlier one is |
| ScopeFilterLaws.LinkValuesUsedOnce | lib/admin/ScopeFilter.js:126-134 | the same for links |
| ScopeFilterLaws.LinkMeaning | lib/admin/ScopeFilter.js:117-134 | a link is admitted exactly when the range is everything or both its end fragments exist and lie inside |
| ScopeFilterInputs.CompileIff | lib/admin/ScopeFilter.js:91-101 | a call is an error exactly for a malformed column, or for one that is no workspace column while there are cells to compare; a malformed or empty range admits nothing |
| ScopeFilterInputs.RangeMeaning | lib/admin/ScopeFilter.js:48-59 | what a range as it arrives admits: everything, what one of its cells, all well-formed, admits, or what its list of workspaces does, or nothing |
| ScopeFilterInputs.LinkErrorIff | lib/admin/ScopeFilter.js:126-129 | a link's alias must be a lower-case name |
| AdminQuery.QueryReturnsExactlyJustified | lib/admin/AdminAuthz.js:234-256 | end to end: the query built from an allowed decision returns exactly the rows a binding justifies in the reported mode, inside the key's list and the scope rows |
| Base32.Base32Encode | lib/admin/admin-totp.js:40-54 | the shift buffer, wrapped to 32 bits, emits the bits of the bytes in groups of five |
| Base32.Base32Decode | lib/admin/admin-totp.js:62-78 | the masked buffer emits the whole bytes of the symbols' bits, or the format error at a character outside the alphabet |
| Base32Laws.RoundTrip | lib/admin/admin-totp.js:40-78 | decoding the encoding gives the bytes back, for every byte sequence |
| Base32Laws.DecodeOfEncode | lib/admin/admin-totp.js:62-63 | the same through the clean-up of case, white space and padding |
| Base32Laws.EncodedLength | lib/admin/admin-totp.js:40-54 | the encoding has ceil(8n/5) symbols, all of the alphabet |
| Base32Laws.IgnoredAnywhere | lib/admin/admin-totp.js:63 | white space and `=` anywhere change nothing |
| Base32Laws.CaseIgnored | lib/admin/admin-totp.js:63 | neither does the case of letters |
| Base32Laws.ErrorIff | lib/admin/admin-totp.js:62-69 | decoding fails exactly if some character is, or upper-cases to, none of white space, `=` and the alphabet |
| Base32Laws.FoldedAlike | lib/admin/admin-totp.js:63 | a character beyond ASCII is read as what upper-casing makes of it |
| Base32Laws.CanonicalIff | lib/admin/admin-totp.js:62-78 | a text is the encoding of what it decodes to exactly when fewer than five bits were dropped and all were zero |
| RateLimiter.RateLimiter.Allow | lib/rate-limiter.js:24-44 | prunes the bucket in place and answers as the step function does |
| RateLimiter.RateLimiter.Peek | lib/rate-limiter.js:52-59 | counts live hits without changing anything |
| RateLimiter.RateLimiter.Cleanup | lib/rate-limiter.js:61-71 | prunes every bucket and drops the empty ones |
| RateLimiter.DualRateLimiter.Allow | lib/rate-limiter.js:101-106 | asks the limiter of the key where there is one, of the address otherwise, and leaves the other alone |
| RateLimiterLaws.AllowedIff | lib/rate-limiter.js:24-44 | in any run, with cleanup and peek anywhere, a call is accepted exactly when fewer than `maxRequests` of its key were accepted in the last `windowMs` |
| RateLimiterLaws.WindowBound | lib/rate-limiter.js:34-43 | every half-open window of every run holds at most `maxRequests` accepted calls of a key |
| RateLimiterLaws.BucketIsHistory | lib/rate-limiter.js:24-71 | a bucket is the key's full history less times that have left the window |
| RateLimiterLaws.PeekIff | lib/rate-limiter.js:46-59 | `peek` predicts `allow` exactly when the key is known or something is allowed at all |
| RateLimiterLaws.PeekMisleads | lib/rate-limiter.js:46-59 | with nothing allowed, `peek` of an unknown key says yes and the `allow` after it no |
| LoginGuard.KeyedLoginGuard.Check | lib/admin/admin-login-guard.js:87-91 | allows from the stored time on, and reports the wait rounded up to seconds |
| LoginGuard.KeyedLoginGuard.RecordFailure | lib/admin/admin-login-guard.js:92-99 | counts on within the maximum delay, starts over after it, moves the key to the end and evicts the least recently updated |
| LoginGuardLaws.LogIsChain | lib/admin/admin-login-guard.js:84-110 | in any guarded run over all keys, in which each attempt is allowed at the moment its failure is recorded, each recorded failure follows the one before it by the delay that one imposed, or begins a new stretch after a longer gap |
| LoginGuardLaws.NthFailure | lib/admin/admin-login-guard.js:92-99 | in a guarded run the n-th failure of a stretch comes at least the sum of the delays after 1 .. n-1 failures after the first |
| LoginGuardLaws.DelayMonotone | lib/admin/admin-login-guard.js:32-36 | delays never shrink and stay within the maximum |
| LoginGuardLaws.EvictsOldest | lib/admin/admin-login-guard.js:95-97 | in any run there are at most `maxEntries` entries, in the order of their last failures, so eviction takes the oldest |
| LoginGuardLaws.TwelveFailuresSpanAMinute | lib/admin/admin-login-guard.js:19-21 | in a guarded run at the defaults no 60 seconds hold more than eleven failures of a key that neither succeeds nor is evicted |
| LoginOverlap.KthLaterWaits | lib/admin/admin-user-auth.js:144-160 | with each attempt checked at one event and recorded at a later one, and at most k of a key in flight, the k-th failure after any failure comes at least the delay that one imposed later |
| LoginOverlap.OverlappingFailuresPerMinute | lib/admin/admin-user-auth.js:263-267 | then no half-open minute holds more than 11 + k failures of a key at the defaults |
| LoginOverlap.AllAtOnce | lib/admin/admin-user-auth.js:263-267 | any number of attempts checked before the first is recorded pass together |
| LoginOverlap.GuardedIsAlone | lib/admin/admin-login-guard.js:84-99 | a guarded run is one with at most one attempt in flight |
| LogTail.ReadTail | lib/admin/admin-logs.js:81-105 | for every file, chunk size and request the backwards read gives exactly the last `tail` non-empty lines of the whole file |
| LogMeaning.TailMeaning | lib/admin/admin-logs.js:81-82 | two hundred lines unless a number is asked for, and from one to a thousand in any case |
| LogMeaning.NonEmptyMeaning | lib/admin/admin-logs.js:102 | the filter keeps exactly the lines that are not empty, in their order |
| LogMeaning.LastMeaning | lib/admin/admin-logs.js:103 | what is read are the last of them, as many as asked for or all there are |
| LogTail.SuffixEnough | lib/admin/admin-logs.js:96-98 | once a suffix has more than `tail` non-empty lines the text before it does not matter |
| LogTail.JoinOfSplit | lib/admin/admin-logs.js:102 | splitting loses no text and leaves no line break in a line |
| LogTail.SplitOfJoin | lib/admin/admin-logs.js:102 | lines without breaks come back from their joined text |
| LogTail.ParseLines | lib/admin/admin-logs.js:107-115 | the loop computes the entries, unrecognised lines added to the message before them |
| LogTail.ParsedText | lib/admin/admin-logs.js:107-115 | the entries hold, in order, exactly the text from the first recognised line on, one entry per recognised line |
| LogMeaning.MatchIff | lib/admin/admin-logs.js:16 | a line is recognised exactly if it is a timestamp of digits in its form, a word in brackets, a colon and a message without line ends |
| LogMeaning.EntryOfBlock | lib/admin/admin-logs.js:107-115 | a recognised line and the unrecognised ones behind it make one entry, its message joined from them |
| ToolArgs.CheckValue | lib/jsonrpc.js:503-534 | terminates on every schema and value and only appends to the caller's errors |
| ToolArgs.CheckOneOf | lib/jsonrpc.js:490-501 | appends nothing when some alternative has no problem, else one problem with the first three details from alternatives of a fitting type |
| ToolArgs.ValidateToolArgs | lib/jsonrpc.js:546-578 | checks fields, then required names, and accepts, warns or throws by the mode |
| ToolArgsLaws.SilentIffConforms | lib/jsonrpc.js:490-534 | nothing is reported exactly when the value conforms to the schema: types, at least one alternative, enumeration, limits, all elements, all known properties, at every depth |
| ToolArgsLaws.TypesMeaning | lib/jsonrpc.js:469-478 | the type test passes exactly for a value of one of the types: an integer is a whole number, an object neither null nor an array |
| ToolArgsLaws.ReportedIffTrue | lib/jsonrpc.js:490-534 | a problem is reported exactly if it is true of the value checked or of a place inside it that the schema leads to: its type, its alternatives, its limits, with the figures it names |
| ToolArgsLaws.FormDetail | lib/jsonrpc.js:490-501 | the details of a failed choice are the first three problems, in order, of the alternatives whose declared type the value has |
| ToolArgsLaws.RejectedIffFaulty | lib/jsonrpc.js:536-578 | enforcement throws exactly when a field does not conform, is unknown and disallowed, or a required one is missing; warning warns exactly then |
| ToolArgsLaws.VerdictSays | lib/jsonrpc.js:546-578 | a call that is rejected or warned of is told exactly what is true of its fields, which are unknown, and which it lacks |
| ToolArgsLaws.PassesForInheritedIff | lib/jsonrpc.js:551-564 | a call that own names alone would reject passes exactly when its only faults are unknown or absent names that every object inherits |
| ToolArgsLaws.InheritedNamesPass | lib/jsonrpc.js:551-564 | an unknown and a required inherited name that do |
| RedisQueue.Queue.PopReliable | lib/redis.js:587-597 | moves the tail of the waiting list to the head of the processing list, and hands it out if the answer arrives and parses |
| RedisQueue.Queue.Ack | lib/redis.js:609-617 | removes the first equal item of the processing list and says whether there was one |
| RedisQueue.Queue.RequeueProcessing | lib/redis.js:629-644 | undisturbed it terminates with the old processing list before the old waiting list and returns its length; a failing command leaves a prefix of that and returns 0 |
| RedisQueue.Queue.Push | lib/redis.js:532-542 | a push at the head, whether or not its request or its answer is lost |
| RedisQueue.Queue.PushPriority | lib/redis.js:550-560 | a push at the tail, likewise |
| RedisQueueLaws.Conservation | lib/redis.js:532-644 | under any interleaving of pushes, pops, acknowledgements and recovery moves, with commands or answers lost and clients gone, waiting, processing and acknowledged items are as a multiset the pushed ones |
| RedisQueueLaws.TakenInOrder | lib/redis.js:532-597 | without priority pushes and recovery, items are taken in the order they were pushed and the rest waits in that order |
| RedisQueueLaws.PriorityIsNext | lib/redis.js:544-560 | a priority push is what the next pop takes, whatever pushes, acknowledgements and recoveries come between, unless another priority push does |
| RedisQueueLaws.WaitingFirst | lib/redis.js:620-644 | after a recovery the pops take all that waited, from the tail, and only then the recovered items, from the tail |
| RedisQueueLaws.WaitingOvertakes | lib/redis.js:620-644 | a run in which an item pushed later is popped before a recovered one |
| BatchWorker.NoJobLost | lib/memory/write/BatchRememberWorker.js:47-99 | with any number of workers, crashes, lost commands, lost answers and recoveries while others work, a job whose submission was answered has succeeded, or an envelope of it is waiting, in processing or dead-lettered |
| BatchWorker.AckKeeps | lib/memory/write/BatchRememberWorker.js:66-99 | acknowledging a settled envelope leaves every later envelope of its job |
| BatchRetries.GivenUpAfter | lib/memory/write/BatchRememberWorker.js:82-92 | over any run an envelope counts no more retries than its job has had failures and never more than the limit, and a job is given up on only after more failures than the limit |
| BatchRetries.DoneIff | lib/memory/write/BatchRememberWorker.js:78-81 | a job is done exactly if a worker that held it succeeded |
| BatchRetries.FailureRetries | lib/memory/write/BatchRememberWorker.js:82-97 | a failure queues the job again with one more retry, or gives it up at the limit, and is acknowledged only if that was answered |
| BatchRetries.AckRemoves | lib/memory/write/BatchRememberWorker.js:98 | an acknowledgement takes one copy of the settled envelope out of the processing list |
| SessionStore.SessionStore.Create | lib/sessions.js:43-169 | adds the session in memory, as the beginning of a chain, and sends its copy to Redis, where the request waits |
| SessionStore.SessionStore.CreateFinished | lib/sessions.js:156-169 | a failed save takes the session out of memory where configured to fail closed |
| SessionStore.SessionStore.Rotate | lib/sessions.js:586-603 | looks the old session up in memory, or waits for its Redis copy |
| SessionStore.SessionStore.RotateFound | lib/sessions.js:605-650 | checks identity and expiry of the record found, and creates the successor up to its save |
| SessionStore.SessionStore.RotateSwapped | lib/sessions.js:650-655 | gives up on a failed save, else remembers the old record and sends the deletion |
| SessionStore.SessionStore.RotateFinished | lib/sessions.js:655-676 | takes the new session back where the deletion failed, else closes the remembered record |
| SessionStore.SessionStore.Close | lib/sessions.js:439-448 | hands the open segment to reflection and waits, the session still in memory |
| SessionStore.SessionStore.CloseFinished | lib/sessions.js:129-150 | takes the session out of memory and, unless it is kept, out of Redis |
| SessionStore.SessionStore.Call | lib/sessions.js:307-312 | takes the record from memory, or waits for its Redis copy |
| SessionStore.SessionStore.CallFinished | lib/sessions.js:313-326 | advances the record, hands an ended segment to reflection, sends the copy, and names the segment the record is then in |
| SessionStore.SessionStore.Validate | lib/sessions.js:357-362 | a record in memory is valid exactly until its expiry; otherwise the request waits for the Redis copy |
| SessionStore.SessionStore.Restored | lib/sessions.js:363-405 | puts a fetched record into memory with a new lifetime and sends it back to Redis |
| SessionStore.SessionStore.Touched | lib/sessions.js:408-428 | answers whether the record has not expired; an expired one is left as it is and closed, another gets a new lifetime, its copy is sent, and the request goes on with it |
| SessionStore.SessionStore.SweepOne | lib/sessions.js:756-781 | one round of the clean-up: an expired session is closed, one idle for long and not reflected since is handed over |
| SessionStore.SessionStore.SweptOne | lib/sessions.js:771-772 | the time of an idle reflection is noted on the record when it is over |
| SessionSteps.ValidateInMemory | lib/sessions.js:357-428 | validating an identifier in memory holds exactly until the record's expiry: past it the record stays as it is, its close begins and no request goes on; before it only its last access and its expiry change, to now and a whole lifetime later |
| SessionSteps.ValidateElsewhere | lib/sessions.js:357-362 | another identifier is fetched from Redis, or is not valid where there is none |
| SessionSteps.CopyRestored | lib/sessions.js:363-405 | a fetched copy enters memory with a new lifetime whether or not it had expired, at the version asked for |
| SessionSteps.ValidateRestoredCopy | lib/sessions.js:408-428 | the end of such a validation is that of a record in memory |
| SessionSteps.CopyExpiryIgnored | lib/sessions.js:381 | undisturbed it holds exactly if no more than a lifetime passes after the restoration, whatever expiry the copy says |
| SessionSteps.ServedWasAlive | lib/sessions.js:417-428 | over any run every request that goes on with a record was let on by a step that validated that record before its expiry |
| SessionSteps.CallAnswered | lib/sessions.js:307-312 | a call is answered with the identifier itself exactly where there is no record, or no segments |
| SessionSteps.CallNamesSegment | lib/sessions.js:313-326 | otherwise with the segment the record is in after the call, as it is saved |
| SessionSteps.SweepCloses | lib/sessions.js:757-761 | the clean-up begins to close an expired session |
| SessionSteps.SweepSpares | lib/sessions.js:764-781 | and does nothing to any other but hand over one idle for long |
| SessionSteps.CloseEnds | lib/sessions.js:129-150 | a close ends with the session out of memory and, unless it is kept, out of Redis |
| McpHandler.McpHandler.Proceed | lib/handlers/mcp-handler.js:275-353 | with its validated record a request asks for the key's state or what comes next, and a login gives the record its own context and saves it |
| McpHandler.McpHandler.KeyAnswered | lib/handlers/mcp-handler.js:293-315 | a revoked key closes the session, else permissions, groups and workspace are taken over in place, unsaved |
| McpHandler.McpHandler.MasterAnswered | lib/handlers/mcp-handler.js:323-331 | a record without mastership is given that of a credential for the same key, and saved |
| McpHandler.McpHandler.GroupsAnswered | lib/handlers/mcp-handler.js:334-342 | refetched groups are assigned and saved |
| McpHandler.McpHandler.LoginAnswered | lib/handlers/mcp-handler.js:344-349 | a session becomes authenticated in place, unsaved |
| McpHandler.McpHandler.Recover | lib/handlers/mcp-handler.js:260-268 | an authenticated request whose session is missing goes on to the identity check, others end |
| McpHandler.McpHandler.RecoverCompared | lib/handlers/mcp-handler.js:371-383 | a different identity in Redis, or a refused mode, ends the recovery |
| McpHandler.McpHandler.Recreate | lib/handlers/mcp-handler.js:399-409 | the session is created under the identifier presented, in the credential's context |
| McpHandler.McpHandler.Agree | lib/handlers/mcp-handler.js:632-640 | the session in memory takes the protocol version over, and is saved at the end of an `initialize` |
| McpSteps.ValidatedStep | lib/handlers/mcp-handler.js:275-353 | a validated request writes nothing and asks its first question; a login that takes the session up again re-anchors the record and saves it |
| McpSteps.KeyStep | lib/handlers/mcp-handler.js:293-315 | a revoked key takes the session out of both maps; the values of a current one replace the record's, unsaved |
| McpSteps.MasterStep | lib/handlers/mcp-handler.js:323-331 | mastership is taken from a credential of the same key and saved, and from no other |
| McpSteps.GroupsStep | lib/handlers/mcp-handler.js:334-342 | groups found again are written and saved |
| McpSteps.LoginStep | lib/handlers/mcp-handler.js:344-349 | only an authentication makes the record an authenticated one |
| McpSteps.RecoveringStep | lib/handlers/mcp-handler.js:260-268 | a recovery needs an identifier the policy admits and an authentication, and a look at Redis where it is in use |
| McpSteps.RecoverFetchedStep | lib/handlers/mcp-handler.js:371-383 | and the same key and mastership as the copy found, if any, and a mode that is granted |
| McpSteps.RecoverAllowedStep | lib/handlers/mcp-handler.js:399-409 | the session then begins anew under the identifier presented, with every field of the request's context |
| McpSteps.CreateStep | lib/sessions.js:43-169 | a new session, every field as given or at its beginning, in memory and on its way to Redis |
| SessionLaws.RotationReplaces | lib/sessions.js:586-676 | a rotation during which no other request runs succeeds exactly when the session is found, the requester is the same or trusted, it has not expired, and the needed Redis commands are answered; then the new session is in memory with the old one's context and origin, the credential's groups and permissions and a lifetime of its own, other sessions are untouched and the old one is in neither store; else there is no new session and memory is as before but for an expired one |
| SessionLaws.RotationAnswered | lib/sessions.js:586-676 | every answer of such a rotation and what it leaves in both maps: 404, 403, 401, 503 before or after the deletion, or the new session, all its fields given, and the result that names it |
| RotationSteps.RotateStep | lib/sessions.js:586-650 | beside any other requests: a rotation finds its record in memory, or fetches a copy, or answers 404; the record found is refused with 403, closed with 401, or succeeded by a new session, all its fields given |
| RotationSteps.RotateFetchedStep | lib/sessions.js:594-603 | a fetched copy is checked as a record in memory is |
| RotationSteps.RotateSavedStep | lib/sessions.js:650-655 | a failed save is taken back with 503 where the server fails closed; otherwise the old session leaves Redis, and the request remembers whether memory held it |
| RotationSteps.RotateDeletedStep | lib/sessions.js:655-676 | a failed deletion takes the new session out of both maps with 503; otherwise the old one leaves memory if it was held, and the result names both |
| SessionContexts.StepContext | lib/handlers/mcp-handler.js:78-95 | a step changes the context of at most one record in place, to what a login, a key's state, a credential or an authentication gave; rotations, restorations, calls and all other steps change none |
| SessionContexts.StepNewRecord | lib/sessions.js:627-650 | a new record is founded with the context given, or takes context and origin of the session it replaces, or is a stored copy |
| SessionContexts.RecordFollowsGiven | lib/handlers/mcp-handler.js:78-95 | over any interleaving a record's context is the last one given to it in place, or the one it had |
| SessionContexts.ChainKeepsContext | lib/sessions.js:627-657 | over any interleaving the context of every record and every stored copy is the one its origin was anchored with, by an event of the run or before it |
| SessionReturns.ReturnsIff | lib/handlers/mcp-handler.js:258-268 | over any run from a state in which neither store holds an identifier, one comes to hold it exactly when a request that carries its record writes it or an authenticated request that presented it is given a session under it |
| SessionReturns.OldReturnsIff | lib/sessions.js:357-428 | the session an identifier stands for can be found again in some way on exactly when a store holds it or a request under way carries it; whatever is found otherwise began later |
| SessionReturns.NeverFoundIffGone | lib/sessions.js:357-428 | and without recoveries the identifier can be found again exactly then |
| SessionReturns.AlwaysRecoverable | lib/handlers/mcp-handler.js:365-419 | from every state in which neither store holds an identifier that recovery admits, a run of one authenticated request begins a session under it in that request's context |
| SessionReturns.GoneOnReturnIff | lib/sessions.js:650-676 | when a rotation returns, its old session is gone exactly when Redis does not hold it again, no request under way carries it, and memory held it before the deletion or does not hold it now |
| SessionReturns.UndisturbedIsGone | lib/sessions.js:650-676 | it is gone if no request carries it at its deletion from Redis and none takes it up or recovers it until it is closed |
| SessionReturns.OldSessionSurvives | lib/sessions.js:653-664 | in every state a rotation that succeeds leaves the old session in Redis, as it was, when a request validates it between its deletion and its closing |
| SegmentLaws.StepOnRecord | lib/sessions.js:193-214 | among all steps only a call on it changes the segment fields of a record, wherever the record is by then |
| SegmentLaws.RecordFollowsCalls | lib/sessions.js:307-326 | over any run the segment fields of a record are what the calls on it make of them |
| SegmentLaws.OpensIff | lib/sessions.js:193-214 | a call opens a segment, numbered one higher, exactly when the idle or the age bound is exceeded |
| SegmentLaws.SegmentBounds | lib/sessions.js:193-214 | consecutive calls of a segment are at most `idleMs` apart and all at most `maxAgeMs` after its beginning |
| SegmentLaws.SegmentsRise | lib/sessions.js:205-209 | segment numbers never fall and rise by at most one per call |
| SegmentLaws.EachSegmentHandedOnce | lib/sessions.js:318-321 | over any run the calls on a record end and hand over its segments one by one, in order, each once |
| SegmentLaws.OnlyTheseHandOver | lib/sessions.js:439-448 | a step hands over at most one target: a call the segment it ended, a close or an expiry the open segment of the session, a sweep that of an idle one, a request by hand the one it asked for |
| SegmentLaws.HandedExactly | lib/sessions.js:307-326 | over any run a segment of a session is handed over once for each record of the session on which a call ended it, and once for each other hand-over of it |
| SegmentLaws.HandedAgainIff | lib/sessions.js:756-781 | so more than once exactly if twice otherwise than by ending it, or once so and once by ending it, or by ending it on two records |
| SegmentLaws.IdleThenEnded | lib/sessions.js:764-772 | a segment reflected while its session is idle and then ended by a call is handed over twice |
| SegmentLaws.HandedTwice | lib/sessions.js:439-448 | closing with the Redis copy kept, restoring and closing again hands the same segment over twice |
| SegmentLaws.EndedOnTwo | lib/sessions.js:260-269 | two calls that overlap on a session only Redis holds both end the same segment |
| ReviewStore.ReviewStore.Begin | lib/admin/ReviewStore.js:209-235 | the locked half of a decision: replay before not-found before state, and nothing written |
| ReviewStore.ReviewStore.Finish | lib/admin/ReviewStore.js:236-258 | the writing half, or, beaten to its key, a roll-back and the earlier decision |
| ReviewStore.ReviewStore.ExpireStale | lib/admin/ReviewStore.js:375-402 | rejects the first stale unlocked fragments and records each as decided by the system |
| ReviewAnswers.BeginTable | lib/admin/ReviewStore.js:209-230 | a decision begins exactly on a fragment pending and not ended; a key that was used is answered first, by its own decision or a conflict, and nothing is written |
| ReviewAnswers.FinishTable | lib/admin/ReviewStore.js:236-258 | it is written as asked unless its key was used meanwhile; an approval sets an anchor exactly if one was asked for, the check allows it, and the reviewer does not decline it, or asks for it where the writer had no permission |
| ReviewAnswers.ExpireTable | lib/admin/ReviewStore.js:375-402 | the automatic rejection rejects and records exactly the overdue unlocked fragments that come first in the order, up to the limit, and leaves every other row |
| ReviewAnswers.AmendTable | lib/memory/write/ReviewQueue.js:178-253 | what an amendment writes, by what it asks for and what its gate saw: under review or not, the marks held back, and the anchor |
| ReviewLaws.DecisionsPerPeriod | lib/admin/ReviewStore.js:209-258 | over any interleaving there is exactly one decision for each time a fragment became pending and is so no longer |
| ReviewLaws.AtMostOneDecision | lib/admin/ReviewStore.js:209-258 | without an amendment that puts it under review again a fragment is decided at most once |
| ReviewLaws.RowsAgree | lib/admin/ReviewStore.js:236-258 | over any interleaving each row's state is what its latest decision made it, a rejected one has ended, and each idempotency key and id names one decision |
| ReviewAnchors.EndIsDecisionUnlessMoved | lib/memory/consolidate/ConsolidatorGC.js:666-673 | a rejected fragment ended at its decision unless a split moved its end afterwards, and then at the last such split |
| ReviewAnchors.EndDiffersIff | lib/memory/consolidate/ConsolidatorGC.js:666-673 | its end differs from the decision exactly when the last split since then ended it at another time |
| ReviewAnchors.EndMoved | lib/memory/consolidate/ConsolidatorGC.js:666-673 | a run in which it does |
| ReviewLaws.ReplayIsStable | lib/admin/ReviewStore.js:137-148 | a decision made under a key is what every later request with that key gets, or a conflict if it asks for another, and that request alters nothing |
| ReviewLaws.EveryDecisionWasMade | lib/admin/ReviewStore.js:205-258 | over any interleaving every recorded decision was made by exactly one step: the commit of a request let in whose key had no decision, or an automatic rejection of a stale fragment; it records the request and the fragment's key as they were, of a fragment then pending, and that step changed its row so, the anchor set exactly when one was asked for, allowed and not declined |
| ReviewAnchors.HeldAnchorIff | lib/memory/write/ReviewQueue.js:178-253 | in any run, while a fragment awaits review it becomes an anchor exactly when its content is inserted again as an anchor, or an amendment that asks for it is written whose gate saw the row before it was put under review |
| ReviewAnchors.UndecidedAnchorIff | lib/memory/write/DedupScope.js:199-212 | a fragment created under review and never decided is an anchor at some time exactly when such an insert happened |
| ReviewAnchors.InsertedAnchor | lib/memory/write/DedupScope.js:199-212 | a run in which an undecided fragment under review is an anchor by an insert |
| ReviewAnchors.OvertakenAnchor | lib/memory/write/FragmentWriter.js:713-717 | and one in which it is by an amendment |
| OAuth.OAuthServer.Authorize | lib/oauth.js:121-253 | the checks in order, then a code with its binding and lifetime; `OAuthAnswers.AuthorizeTable` says exactly when |
| OAuth.OAuthServer.Exchange | lib/oauth.js:391-488 | consumes the code and gives tokens or the first reason not to |
| OAuth.OAuthServer.RefreshStart | lib/oauth.js:315-339 | looks the refresh token up, before the key's retirement is asked for |
| OAuth.OAuthServer.RefreshFinish | lib/oauth.js:337-388 | issues a pair in place of the old refresh token |
| OAuth.OAuthServer.Validate | lib/oauth.js:493-519 | drops an expired token, answers with the token's grant otherwise |
| OAuth.OAuthServer.Cleanup | lib/oauth.js:565-587 | drops exactly the expired codes and tokens |
| OAuthAnswers.AuthorizeTable | lib/oauth.js:134-230 | a code is issued exactly for response type code, a redirect address, an S256 challenge, a known client and an address it may use; it carries them, its scope and ten minutes; otherwise the error is named and nothing stored |
| OAuthAnswers.ExchangeTable | lib/oauth.js:391-488 | the first exchange that names a code with a verifier spends it, and yields an access and a refresh token of its client and scope exactly if redirect address, verifier, time and bound key fit; otherwise the error is named |
| OAuthAnswers.RefreshStartTable | lib/oauth.js:311-335 | a refresh is looked up by a refresh token that has not expired; an expired one is dropped |
| OAuthAnswers.RefreshFinishTable | lib/oauth.js:337-388 | it is refused exactly if no secret was presented and the token's key was retired since; else a pair of the same client and scope takes the token's place |
| OAuthAnswers.ValidateTable | lib/oauth.js:493-519 | a token is valid exactly if it is a stored access token that has not expired, and an expired one is dropped |
| OAuthLaws.CleanupInvisible | lib/oauth.js:565-587 | cleaning up, whenever and however often, changes neither the success nor the error of any answer of the run |
| OAuthLaws.ExchangeIff | lib/oauth.js:391-436 | an exchange yields tokens exactly when nobody tried the code before, it has not expired, and redirect address, verifier and bound key fit |
| OAuthLaws.ExchangeProves | lib/oauth.js:418-436 | it repeats the redirect address and proves the S256 challenge (section 4.6 of RFC 7636) of an earlier authorization of a known client for an address it may use, within its lifetime |
| OAuthLaws.OnePairPerCode | lib/oauth.js:401-410 | over any run each code yields at most one pair of tokens |
| OAuthLaws.RefreshKeepsGrant | lib/oauth.js:341-370 | every token carries client and scope of the code its chain of refreshes began with |
| OAuthLaws.SpentRefused | lib/oauth.js:319-329 | a refresh token that was replaced starts no further refresh |
| OAuthOverlap.AnotherPairIff | lib/oauth.js:319-379 | a replaced token yields another pair in some continuation of the run exactly when another refresh of it has looked it up and still waits |
| OAuthOverlap.NoFurtherPair | lib/oauth.js:319-379 | once none waits, no continuation yields one |
| OAuthOverlap.SpentTwice | lib/oauth.js:319-379 | a run from a login on in which they do |
| OAuthLaws.ValidIff | lib/oauth.js:493-519 | a token is valid exactly when it was issued as an access token and has not expired |
| OAuthLaws.IssuedByEvent | lib/oauth.js:341-370 | every token names the event that issued it, and lives exactly the lifetime of its kind from then on |
| OAuthLaws.BoundKeysWerePresented | lib/oauth.js:434-447 | over any run no code or token is bound to a key that no client or secret presented |
| HashLimiter.HashLimiter.Run | lib/admin/admin-password.js:88-94 | turns the job away when busy, else queues it and starts the first waiting one if a slot is free |
| HashLimiter.HashLimiter.Settle | lib/admin/admin-password.js:83-86 | a settled job frees its slot for the first waiting one |
| HashLimiterLaws.InvAlways | lib/admin/admin-password.js:73-97 | over any run both limits hold and nothing waits while a slot is free |
| HashLimiterLaws.FirstInFirstOut | lib/admin/admin-password.js:76-87 | accepted jobs are started in order, each once, and those not started are those that wait |
| HashLimiterLaws.BusyIff | lib/admin/admin-password.js:88-90 | a job is turned away exactly when all slots are taken and the queue is full |
| HashLimiterLaws.EveryJobRuns | lib/admin/admin-password.js:73-97 | with a slot at all, as many completions as jobs in hand start and finish every accepted job |

## Left out

- The scan of source files that builds the import graph, and the linters' rules and command lines. The order of
  `localeCompare` is any total preorder.
- The regular expression that recognises index statements; the line it reports is computed from its match position.
- Text is a sequence of characters rather than of UTF-16 units, so characters beyond the basic plane count once.
- The `steps`, summary and redaction flag of a decision, and the mode and range reported beside a refusal.
- The contents of the role presets and the mode order, which are a map and a list here; capabilities.js is not part of
  this model.
- Upper-casing outside ASCII in base32 texts, which is any function that agrees on ASCII. One-time password codes.
- The guard for the single administrator password, which counts without keys, and a negative `maxEntries`.
- LogTail.ReadTail: does not model a multi-byte character split at a chunk edge, because the file is read as characters.
- ToolArgs.ValidateToolArgs: does not model the metrics and log lines of unknown fields, because they decide nothing.
- Schemas whose `type` list holds an undefined entry, and numbers that are not finite; JSON has neither.
- Redis expiry of keys, and Redis scripts, batches and clusters.
- RedisQueueLaws.TakenInOrder: does not cover runs with recovery, because recovery changes the order of items.
- Of sessions: other processes on the same Redis, and expiry there. Redis commands take effect in the order they are
  sent, and a reply may come back at any later time. A run may begin in any state whose records fit their places, so
  after a restart with whatever Redis then holds.
- SegmentLaws.EachSegmentHandedOnce: is about one record; SegmentLaws.HandedExactly is about all records of a session.
- Server-sent events, heartbeats, legacy sessions, the client's name and the share scopes of a session, and what a
  reflection does: it passes over activity that is marked as reflected, and counted here is what is handed to it.
- Listing, notes, audit records and the anchor check of review decisions; the check's verdict is a parameter, and
  anchorPolicy.js is not part of this model.
- Of the other writers of a fragment only what they do to review state, anchor and end of validity: what makes an
  amendment subject to review, and when a fragment is promoted, are parameters.
- The Redis branch of the authorization server, resolving clients and secrets, and the redirect address allow-list.
- OAuthLaws.SpentRefused: does not cover a refresh begun before the other one replaced the token, which
  OAuthOverlap.AnotherPairIff does.
- Password hashing itself, HTTP handlers, PostgreSQL, logging, metrics and configuration.
