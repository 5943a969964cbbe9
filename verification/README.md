# Herald notification gateway: verified model

The gateway takes notification requests from protocols, queues them, delivers them by email, Telegram and SMS, and
writes receipts, bills and webhooks around that. This project models the parts of it where the behaviour is hard to see
from any one function, and proves what they do over all inputs and all runs. `dafny verify dfyconfig.toml` checks it.

| file | what it models |
|---|---|
| `JsStrings.dfy`, `Sets.dfy` | `indexOf`, `split` and decimal numbers on strings; sets of ids |
| `TelegramSplitter.dfy`, `TelegramSender.dfy` | cutting a long Telegram message into parts, tagging and sending them |
| `HtmlEscape.dfy`, `LinkParser.dfy` | escaping, the markdown link scanner, and the right-to-left splice |
| `LinkCleaning.dfy` | when the text with its links removed holds a link again |
| `NotifyProtocol.dfy`, `NotifyIdempotency.dfy` | concurrent production requests with idempotency keys, every awaited call a step |
| `ChannelDispatch.dfy`, `MailWorker.dfy` | which channels a job goes to; delivery attempts, retries and metering |
| `BounceStreak.dfy` | the soft-bounce query and the suppressions, against a counter over the history of events |
| `BounceOverlap.dfy` | overlapping bounce reports between their duplicate check and their insert |
| `RpcBreaker.dfy` | the circuit breaker of the Solana connection |
| `RateLimit.dfy` | the per-second fixed window in Redis |
| `Receipts.dfy` | the receipt scan, the worker's loop, and overlapping batches against the chain's log of transactions |
| `SubscriptionGuard.dfy` | the cache in front of the subscription row, with every call in flight |
| `SendCounters.dfy` | the paired send counters, and the hourly expiry pass |
| `Webhook.dfy` | overlapping webhook attempts, the failure counter and auto-disabling |
| `SandboxQuota.dfy` | the daily quota of a sandbox key, checked before and counted after the job is added, in separate Redis commands |
| `SandboxLockout.dfy` | sandbox keys whose count never expires |
| `Scheduler.dfy` | the reconciler of scheduled notifications, with crashes and cancels |
| `TemplateCache.dfy` | the 32-bit template hashes and the two caches keyed by them |

Code that changes state step by step is a class, or a method with a loop, whose contract ties the new state to a function
of the old one. Where calls of several requests, workers or ticks interleave, the same operations appear once more as the
steps of a machine on values, so that a run is any sequence of enabled steps. A step is an awaited call that reads or
writes what the machine shares; calls in between that touch none of it are part of the step before them. The class method
is the run of one request that nothing disturbs. The theorems are about all runs.

## What the proofs found

- **Splitting never loses text, and is bounded by truncation.** The sender's comment says long messages are split instead
  of truncated; the formatters truncate to 4096 first, so there are at most five parts. The part tag leaves one of the 15
  characters of headroom free while the number of parts has one digit; it just fits for parts 1 to 9 of up to 99.
- **Idempotency.** The Redis protocol alone allows one job per key, plus one for each expiry, each timed-out add, and
  each release by a failed *sandbox* send, which deletes the production key it does not own (notify.service.ts:549-553).
  The unique index on `idempotency_key` (prisma/schema.prisma:133) makes it one job for ever. It also defeats the release
  after a failed enqueue: the failed row stays, so no retry with that key is ever queued.
- **Removing links** is idempotent unless a '[' in a label is closed as a link by what follows it, or a gap that ends in
  "[x]" meets a label that goes on as "(url)"; labels without '[' that do not begin with '(' are always safe.
- **Breaker.** The comment says "5+ failures"; the code trips at six more failures than successes.
- **Rate limit.** A Redis error denies the request; the test at
  src/modules/auth/rate-limit.service.spec.ts:115-122 that expects it to be allowed is stale.
- **Receipts.** Rows whose protocol is missing are skipped and stay at the head of the scan. A notification is settled if
  and only if fewer than a batch of such rows are older than it.
- **Receipt status.** A failure with an empty message is reported as pending but is never scanned again. The worker does
  not read the error of a confirmation, so a row can say confirmed although every transaction for it failed on the chain.
  A row can also say failed although a transaction was accepted, before the failure was written or after it; unless another
  attempt was under way by then, it says so for ever.
- **Subscription cache.** After a write and its key deletion a request sees an old row exactly while a fill that started
  before the write and landed after the deletion is live.
- **Webhooks.** A webhook at its failure threshold stays dead even if its owner switches it on again: only a successful
  post resets the counter, and none is ever made.
- **Sandbox quota.** INCR and EXPIRE are separate, and the time to midnight is computed before both. Around midnight a key
  can therefore die with today's increments in it: by an EXPIRE from the day before, or because an increment hit
  yesterday's key just before it died. Each alone breaks the bound that holds on every other day, the second even with
  one request at a time. Conversely, the expiry is rounded up, so yesterday's count can carry over into today. A key whose
  count reached the limit without ever getting an expiry is locked out for ever; it takes a lost EXPIRE for each increment.
- **Bounce reports.** The duplicate check and the insert are separate and no index backs them. With k reports of a message
  in between, it gets k rows, and the streak query takes one soft bounce for k; it never gets more.
- **Scheduler.** A cancel after the reconciler's snapshot and before the row's turn is overwritten; a row that says
  RUNNING can change again if and only if the reconciler is at it. It is left that way in exactly two cases, both after the
  mark: a crash, and a throw whose own write of FAILED fails and is swallowed (scheduler.service.ts:198-201).
- **Counters.** Nothing calls the joint reset, so the protocol counter that the monthly quota reads never renews.
- **Expiry pass.** A payment that arrives between the scan and the write is undone by the write; and if only the second
  update throws, the subscription is expired with its protocol left on.
- **Template caches.** Different sources can have one key, for both hashes, and are then served each other's template. An
  answer is wrong if and only if a different source is cached under the key; for the unbounded cache, some answer so far
  was wrong if and only if two of the sources asked for have one key.

## Model

| member | source | states |
|---|---|---|
| `JsStrings.SplitIsExact` | src/modules/channel/providers/telegram.provider.ts:556-572 | the parts of a split joined by the separator are the text, and no part contains the separator |
| `TelegramSplitter.HardCut` | src/modules/channel/providers/telegram.provider.ts:584-595 | a line longer than a chunk is cut into full chunks and one non-empty remainder that is carried on, losing nothing |
| `TelegramSplitter.SplitParagraphs` | src/modules/channel/providers/telegram.provider.ts:549-600 | a long text becomes non-empty chunks within the size that tile it with gaps of newlines, cut inside a line or paragraph only as a last resort |
| `TelegramSplitter.SplitIntoChunks` | src/modules/channel/providers/telegram.provider.ts:545-601 | for every text and every maximum above 15: a short text is one chunk; otherwise chunks fit, no character but newlines is lost, repeated or reordered, and three consecutive chunks hold at least the size minus one |
| `TelegramSender.Truncate` | src/modules/channel/providers/telegram.provider.ts:308-312 | a text over the limit keeps its first limit - 1 characters and ends in an ellipsis; others are unchanged |
| `TelegramSender.ChunkCount` | src/modules/channel/providers/telegram.provider.ts:545-601 | every three chunks of a tiled text use up at least the chunk size minus one |
| `TelegramSender.HeadroomIsForOneDigit` | src/modules/channel/providers/telegram.provider.ts:541-546 | the part tag leaves one character of the headroom free if and only if there are fewer than ten parts |
| `TelegramSender.PartsFit` | src/modules/channel/providers/telegram.provider.ts:483-494 | a text within 4096 gives at most five chunks, and every tagged part is within 4096 |
| `TelegramSender.NothingSentOnlyForNewlines` | src/modules/channel/providers/telegram.provider.ts:483-512 | no part is sent only if the text is newlines alone |
| `JsStrings.DecimalIsNumeral` | src/modules/channel/providers/telegram.provider.ts:491-494 | the digits in a tag are the numeral, without leading zeros, whose value is the number |
| `TelegramSender.PartsCarryChunks` | src/modules/channel/providers/telegram.provider.ts:489-502 | the i-th message begins with the i-th chunk and ends in the tag "(i/N)" unless it is alone; the keyboard is on the last |
| `TelegramSender.BodiesAreChunks` | src/modules/channel/providers/telegram.provider.ts:489-494 | cutting the messages at their last line break gives the chunks back |
| `TelegramSender.Chat.SendParts` | src/modules/channel/providers/telegram.provider.ts:488-512 | the messages are sent in order, all of them or exactly those before the first call that throws; each begins with its chunk, followed by the tag with its number and theirs, or by nothing if it is alone; keyboard exactly on the last |
| `TelegramSender.Chat.SendText` | src/modules/channel/providers/telegram.provider.ts:483-512 | from rendered text to messages: if all are accepted, the messages themselves, with their tags cut off, tile the truncated text; at most five, each within 4096 |
| `TelegramSender.Chat.SendMedia` | src/modules/channel/providers/telegram.provider.ts:456-477 | with media one message is sent, whose caption is the rendered text cut once to 1024 although the code cuts twice |
| `HtmlEscape.EscapeIsSimultaneous` | src/common/utils/link-parser.ts:120-127 | the five passes in a row equal one simultaneous map of characters to entities |
| `HtmlEscape.EscapedIsSafe` | src/common/utils/link-parser.ts:120-127 | no angle bracket or quote is left in escaped text |
| `HtmlEscape.EscapeIsInjective` | src/common/utils/link-parser.ts:120-127 | texts with the same escaped form are the same |
| `HtmlEscape.UnescapeAfterEscape` | src/common/utils/link-parser.ts:120-136 | unescaping an escaped text decodes exactly the four entities the text itself spelled out |
| `HtmlEscape.RoundTripIff` | src/common/utils/link-parser.ts:120-136 | unescape after escape gives the text back if and only if it contains none of four entity literals |
| `LinkParser.StartsMatchIff` | src/common/utils/link-parser.ts:16 | a link starts at a bracket that closes after at least one character, right before a parenthesis that closes after at least one |
| `LinkParser.MatchIsUnique` | src/common/utils/link-parser.ts:16 | at a given position the link pattern reads in at most one way, and the matcher finds it |
| `LinkParser.Exec` | src/common/utils/link-parser.ts:42-44 | the leftmost match at or after a position, or none if no position starts one |
| `LinkParser.ParseMarkdownLinks` | src/common/utils/link-parser.ts:37-61 | the spans increase, do not overlap, read back as label and url, and no gap starts a match; the clean text is gaps and labels |
| `LinkParser.ScanIsUnique` | src/common/utils/link-parser.ts:44-53 | that description determines the spans |
| `LinkParser.ReplaceMatchesByLabels` | src/common/utils/link-parser.ts:55 | the global replace, a scan of its own, gives the gaps and labels of the same links |
| `LinkParser.SpliceEqualsConcatenation` | src/common/utils/link-parser.ts:67-74 | splicing right to left equals one left-to-right concatenation, for links in any order |
| `LinkParser.SortIsStable` | src/common/utils/link-parser.ts:67 | links that start at one place keep their order |
| `LinkParser.RenderedSaysLink` | src/common/utils/link-parser.ts:79-92 | read up to its quotes and tags, an element goes to its url and shows its label, as an image with alternative text for images only; unescaping gives both back exactly if they spell out no entity |
| `LinkParser.MarkupIsTheElements` | src/common/utils/link-parser.ts:79-92 | the numbers of angle brackets and quotes in an element depend on the type of the link alone |
| `LinkParser.ConvertLinksToHtml` | src/common/utils/link-parser.ts:63-77 | the in-place loop yields gaps and elements that say their links, for every order of the input list |
| `LinkParser.LinksAndGapsTileText` | src/common/utils/link-parser.ts:44-53 | putting each link's own source back between the gaps gives the text |
| `LinkParser.ParseAndRender` | src/modules/template/template.service.ts:725-726 | parse and render together: the links of the text are exactly what is replaced, each by an element that says it |
| `LinkParser.CleaningCanMakeLinks` | src/common/utils/link-parser.ts:55 | removing links is not idempotent: a concrete text whose clean text is a link |
| `LinkCleaning.CleaningIsIdempotentIff` | src/common/utils/link-parser.ts:55 | removing links twice is removing them once if and only if no label and no gap of the parse completes a new link |
| `LinkCleaning.CleanTextHasLinkIff` | src/common/utils/link-parser.ts:16 | the cleaned text starts a match somewhere if and only if some label or gap of the parse completes one |
| `LinkCleaning.LabelOpensIff` | src/common/utils/link-parser.ts:42-55 | a match starts inside a kept label exactly at a '[' that the text behind the label closes as a link |
| `LinkCleaning.GapOpensIff` | src/common/utils/link-parser.ts:42-55 | a match starts in a gap exactly when the gap ends in a bracket and the label behind it goes on as a url |
| `LinkCleaning.PlainLabelsStayClean` | src/common/utils/link-parser.ts:55 | labels without '[' that do not begin with '(' leave no link |
| `LinkCleaning.BothPlacesOccur` | src/common/utils/link-parser.ts:55 | a text for each of the two places |
| `NotifyIdempotency.NotifyService.QueueProductionNotification` | src/modules/notify/notify.service.ts:72-249 | a request that nothing disturbs performs exactly the steps of the machine and answers as it does; a taken key changes nothing, and otherwise job, row and key are as the answer says, the key free again after a failed enqueue |
| `NotifyIdempotency.JobsBounded` | src/modules/notify/notify.service.ts:81-239 | in every interleaving, jobs under a key are at most one plus expiries, foreign releases and timed-out adds |
| `NotifyIdempotency.AtMostOneJob` | src/modules/notify/notify.service.ts:81-239 | within the key's lifetime and without timeouts there is at most one job |
| `NotifyIdempotency.JobsAreDistinct` | src/modules/notify/notify.service.ts:189-210 | no request is in the queue twice |
| `NotifyIdempotency.OnlyHolderActs` | src/modules/notify/notify.service.ts:189-228 | while the key is undisturbed only its holder enqueues or releases |
| `NotifyIdempotency.DuplicateNamesAClaimant` | src/modules/notify/notify.service.ts:91-104 | a duplicate answer names a request that claimed the same key, or the asker itself |
| `NotifyIdempotency.DuplicateNamesTheHolder` | src/modules/notify/notify.service.ts:91-104 | it names the holder of the key at the moment of the GET, or the asker if the key was gone by then |
| `NotifyIdempotency.AnswersTellTheQueue` | src/modules/notify/notify.service.ts:211-248 | queued means the job is there; failed means it is not unless its add timed out |
| `NotifyIdempotency.TimeoutAllowsTwoJobs` | src/modules/queue/queue.service.ts:36-69 | the protocol alone reaches two jobs with one timed-out add that lands late |
| `NotifyIdempotency.DisturbanceAllowsTwoJobs` | src/modules/notify/notify.service.ts:549-553 | the protocol alone reaches two jobs after an expiry, or after a sandbox failure deletes the key |
| `NotifyIdempotency.BoundIsReached` | src/modules/notify/notify.service.ts:81-239 | for every number of expiries, foreign releases and timed-out adds the protocol alone reaches one job more than their sum |
| `NotifyIdempotency.AtMostOneJobEver` | prisma/schema.prisma:133 | with the unique index there is at most one job per key whatever happens |
| `NotifyIdempotency.FailedKeyIsSpent` | src/modules/notify/notify.service.ts:217-228 | with the index, once an enqueue has failed no request with the key is ever queued, although the key was released |
| `ChannelDispatch.ResolveAllowedChannels` | src/modules/channel/channel-dispatch.service.ts:150-202 | a channel is allowed if and only if it is registered, not excluded and requested, or SMS by escalation; the list is ordered |
| `ChannelDispatch.SortKeepsAll` | src/modules/channel/channel-dispatch.service.ts:194-199 | sorting by channel order is a permutation |
| `ChannelDispatch.RoutingRules` | src/modules/channel/channel-dispatch.service.ts:150-192 | never without contact, when excluded, or beyond email without a paid tier; otherwise what was asked for, and beyond that only SMS for important or critical messages |
| `ChannelDispatch.Start` | src/modules/channel/channel-dispatch.service.ts:74-86 | each allowed channel with a contact is tried once, however often the list names it |
| `ChannelDispatch.SummaryIsAboutChannels` | src/modules/channel/channel-dispatch.service.ts:99-117 | the success count is all, or none, exactly when every, or no, channel tried succeeded |
| `ChannelDispatch.Dispatch` | src/modules/channel/channel-dispatch.service.ts:64-119 | exactly the allowed channels are tried, email before Telegram before SMS; each outcome tells how its delivery went; all-delivered means one was tried and all succeeded |
| `MailWorker.VerdictMeans` | src/modules/queue/workers/mail.worker.ts:148-337 | each status of a production attempt has its exact condition: all, some or none of the tried channels succeeded, no identity or no contact, digest; an attempt throws exactly when it says failed |
| `MailWorker.SandboxVerdictMeans` | src/modules/queue/workers/mail.worker.ts:75-139 | a sandbox attempt is opted out if and only if there is no test contact, delivered if and only if there is one and some outcome succeeded, failed in all other cases, and never throws |
| `MailWorker.SandboxDeliveredIffSomeAllowedSucceeds` | src/modules/queue/workers/mail.worker.ts:86-122 | sandbox and dispatch together: delivered if and only if some allowed channel succeeds |
| `MailWorker.Worker.DispatchSandbox` | src/modules/queue/workers/mail.worker.ts:86-139 | the sandbox attempt with its dispatch: the status follows from the allowed channels, and nothing else changes |
| `MailWorker.DeliveredIffAllowedSucceed` | src/modules/channel/channel-dispatch.service.ts:64-119 | worker and dispatch together: delivered if and only if a channel is allowed and every allowed channel succeeds; partial if some do and some do not; a throw if none does |
| `MailWorker.Worker.DispatchAndRecord` | src/modules/queue/workers/mail.worker.ts:253-348 | the attempt with its dispatch: status, retry count and send counter follow from the allowed channels and their deliveries |
| `MailWorker.Worker.Process` | src/modules/queue/workers/mail.worker.ts:59-71 | one attempt writes the row, the result and the counter as the machine does, and throws as it says |
| `MailWorker.Worker.ProcessSandbox` | src/modules/queue/workers/mail.worker.ts:75-139 | a sandbox attempt records its verdict, whose meaning is SandboxVerdictMeans, never throws, and counts no send |
| `MailWorker.Worker.ProcessProduction` | src/modules/queue/workers/mail.worker.ts:143-411 | a production attempt records its verdict and counts a send exactly for delivered and partial |
| `MailWorker.UndisturbedAttempt` | src/modules/queue/workers/mail.worker.ts:59-411 | the steps of one attempt in a row are the whole attempt |
| `MailWorker.RetryCountIsThrows` | src/modules/queue/workers/mail.worker.ts:324-397 | retryCount is the number of throwing attempts, three exactly when the job is given up, and zero in the sandbox |
| `MailWorker.FinishedJobsAreSettled` | src/modules/queue/workers/mail.worker.ts:59-411 | no finished job leaves its notification queued or processing; a production job fails only by three throws |
| `MailWorker.AtMostThreeAttempts` | src/modules/queue/queue.service.ts:53-58 | a notification is attempted at most three times, at most once without a throw |
| `MailWorker.FirstAttemptHappens` | src/modules/queue/workers/mail.worker.ts:59-71 | for every job and every answer from outside some run ends in that verdict |
| `MailWorker.ThreeThrowsHappen` | src/modules/queue/queue.service.ts:53-58 | a job that keeps throwing is attempted three times and ends failed and given up |
| `MailWorker.DeliveryIsLastAttempt` | src/modules/queue/workers/mail.worker.ts:290-337 | after delivered or partial the notification is never picked up again |
| `MailWorker.SendsAreConserved` | src/modules/queue/workers/mail.worker.ts:339-348 | in every run counter, writes to come and lost writes add up to the protocol's delivered production notifications |
| `MailWorker.CounterIsExactAtRest` | src/modules/billing/overage-metering.service.ts:29-53 | the counter never runs ahead, and is exact when nothing is pending or lost |
| `BounceStreak.BounceService.ProcessSesBounce` | src/modules/bounce/bounce.service.ts:104-253 | every SES notification changes the tables as the event function says, including the three-query soft-bounce branch |
| `BounceStreak.BounceService.ProcessResendEvent` | src/modules/bounce/bounce.service.ts:10-102 | the same for Resend, whose bounces are all hard |
| `BounceStreak.QueryIsStreak` | src/modules/bounce/bounce.service.ts:151-182 | over every history with increasing times the query over the tables equals a counter that never looks at a table |
| `BounceStreak.SuppressionIsExact` | src/modules/bounce/bounce.service.ts:184-238 | the suppression row is the one the history calls for; soft exactly at a fresh bounce making the streak three or more |
| `BounceStreak.DuplicateChecksAreExact` | src/modules/bounce/bounce.service.ts:127-135 | the duplicate lookups answer whether such a report was made before |
| `BounceStreak.WalletsAreRecipients` | src/modules/bounce/bounce.service.ts:114-121 | a message is known exactly if it was sent, and belongs to its first recipient |
| `BounceStreak.AtMostABounceThenAComplaint` | src/modules/bounce/bounce.service.ts:127-228 | a message has at most two rows: a bounce, then a complaint |
| `BounceStreak.ReplayedBounceChangesNothing` | src/modules/bounce/bounce.service.ts:127-135 | a second bounce report for a message changes no table, whatever came in between |
| `BounceStreak.RepeatedComplaintKeepsStreaks` | src/modules/bounce/bounce.service.ts:215-238 | a second complaint renews the suppression and resets no streak |
| `BounceStreak.SoftBounceCountsIffLater` | src/modules/bounce/bounce.service.ts:170-182 | a fresh soft bounce counts if and only if it is later than the cutoff; one in the same instant is lost |
| `BounceOverlap.AtMostOverlapRows` | src/modules/bounce/bounce.service.ts:32-52 | with at most k reports between their check and their insert, a message has at most k bounce rows and at most k complaint rows |
| `BounceOverlap.RecordedAgainIff` | src/modules/bounce/bounce.service.ts:127-147 | a report that passed its check is inserted as a second row if and only if another report for the message was inserted in between |
| `BounceOverlap.OverlapHappens` | src/modules/bounce/bounce.service.ts:127-182 | for every k and kind some run records one message k times; k soft rows count k in the streak query |
| `RpcBreaker.RpcManager.GetConnection` | src/solana/rpc-manager.service.ts:51-66 | the call makes the specified step, recovery included, and returns the active endpoint |
| `RpcBreaker.RpcManager.RecordFailure` | src/solana/rpc-manager.service.ts:69-88 | the call makes the specified step |
| `RpcBreaker.RpcManager.RecordSuccess` | src/solana/rpc-manager.service.ts:91-93 | the call makes the specified step |
| `RpcBreaker.EpochsAreResets` | src/solana/rpc-manager.service.ts:51-93 | the points where the counter is reset, and whether the breaker is open, are read off the calls alone |
| `RpcBreaker.CounterIsReadOffTheCalls` | src/solana/rpc-manager.service.ts:69-93 | the counter is the largest excess of failures over successes of any stretch since such a point |
| `RpcBreaker.FirstTrip` | src/solana/rpc-manager.service.ts:79-87 | the breaker first opens exactly with the first call that completes a stretch of six more failures than successes |
| `RpcBreaker.CounterIsMaxSuffix` | src/solana/rpc-manager.service.ts:69-93 | the counter is the largest excess of failures over successes of any stretch since the last reset |
| `RpcBreaker.TripsIffOverloaded` | src/solana/rpc-manager.service.ts:79-87 | the breaker trips exactly at the call that completes a stretch with six more failures than successes |
| `RpcBreaker.CounterStaysTolerated` | src/solana/rpc-manager.service.ts:79-87 | with a fallback the counter never rests above five |
| `RpcBreaker.NoFallbackNeverOpens` | src/solana/rpc-manager.service.ts:79-87 | without a fallback nothing opens and nothing is reset |
| `RpcBreaker.FallbackIffOpen` | src/solana/rpc-manager.service.ts:51-88 | the fallback is active exactly while the breaker is open |
| `RpcBreaker.OpenIffLastResetTripped` | src/solana/rpc-manager.service.ts:51-88 | open means tripped and not recovered since |
| `RpcBreaker.LastFailureIsLatest` | src/solana/rpc-manager.service.ts:69-71 | the remembered time is that of the latest failure |
| `RpcBreaker.FallbackOnlyAfterRecentFailure` | src/solana/rpc-manager.service.ts:54-63 | the fallback is handed out only if a failure was recorded in the last 30 s |
| `RpcBreaker.QuietBreakerRecovers` | src/solana/rpc-manager.service.ts:54-63 | with no failure in the last 30 s the primary is handed out |
| `RateLimit.RateLimitService.RateLimitLua` | src/modules/auth/rate-limit.service.ts:52-64 | the script increments a live counter or creates one that expires a window later |
| `RateLimit.RateLimitService.CheckPerSecondLimit` | src/modules/auth/rate-limit.service.ts:129-193 | the check decides by the counter after its own increment, and refuses when Redis fails |
| `RateLimit.CountersAreExact` | src/modules/auth/rate-limit.service.ts:57-60 | no counter expires inside its own second, so it is the number of requests that reached Redis in it |
| `RateLimit.AllowedIffWithinLimit` | src/modules/auth/rate-limit.service.ts:146-172 | the n-th request of a second is allowed if and only if Redis answers and n is at most its limit; the remaining allowance is exact |
| `RateLimit.AtMostTwiceTheLimit` | src/modules/auth/rate-limit.service.ts:134-135 | at most twice the limit is allowed in any 1000 ms |
| `RateLimit.TwiceTheLimitHappens` | src/modules/auth/rate-limit.service.ts:134-135 | for every limit there is a history that allows twice as many within 2 ms |
| `RateLimit.AtMostTwoLiveKeys` | src/modules/auth/rate-limit.service.ts:57-60 | only the counters of this second and the one before are live |
| `Receipts.ReceiptWorker.Process` | src/modules/receipt/receipt.worker.ts:250-378 | the loop leaves each row of the batch as its own attempt says, touches no other, and its counts are those of the attempts |
| `Receipts.ScanAndProcessIsRound` | src/modules/receipt/receipt.service.ts:54-90 | a scan and its batch remove from the pending list the first B but those whose protocol is missing, in place |
| `Receipts.BatchIsTheOldest` | src/modules/receipt/receipt.service.ts:54-70 | a pending notification is in the batch if and only if fewer than B pending ones were delivered before it, and the batch is in the order of delivery |
| `Receipts.AttemptMeans` | src/modules/receipt/receipt.worker.ts:255-376 | only a missing protocol leaves a notification pending; otherwise it is disabled, confirmed with its transaction, or failed with its message |
| `Receipts.TallyCounts` | src/modules/receipt/receipt.worker.ts:349-354 | the two counts are the numbers of confirmed and of failed notifications of the batch |
| `Receipts.WithoutOrphans` | src/modules/receipt/receipt.service.ts:67-68 | with all protocols present k rounds settle exactly the k times B oldest |
| `Receipts.Settles` | src/modules/receipt/receipt.worker.ts:255-265 | with o fewer than B orphans ahead a notification is settled within the stated number of rounds, whatever is delivered meanwhile |
| `Receipts.Starves` | src/modules/receipt/receipt.worker.ts:260-265 | with B orphans ahead it never is |
| `Receipts.SettledIffFewOrphansAhead` | src/modules/receipt/receipt.worker.ts:255-265 | after enough rounds settled if and only if fewer than B older pending ones are orphans |
| `Receipts.StatusGoesForwardIff` | src/modules/notify/notify.service.ts:641-650 | an attempt never moves the status back, except an empty failure message after a failure |
| `Receipts.ReportedPendingIsScannedIff` | src/modules/notify/notify.service.ts:646-650 | what is reported pending is scanned if and only if its failure reason is not empty text |
| `Receipts.StatusesGoForward` | src/modules/receipt/receipt.worker.ts:349-376 | over a whole run of overlapping batches without empty messages the status only goes forward |
| `Receipts.ConfirmedWithoutReceiptIff` | src/modules/receipt/receipt.worker.ts:337-353 | a confirmed notification's transaction was executed, and it has no receipt at its address if and only if every transaction executed for the address failed for another reason than the address being taken |
| `Receipts.ConfirmedWithoutReceiptHappens` | src/modules/receipt/receipt.worker.ts:340-353 | for every notification there is a run that ends confirmed and without a receipt |
| `Receipts.OneReceiptPerAddress` | src/modules/receipt/receipt.worker.ts:290-347 | however the batches overlap, at most one transaction of the log is accepted per derived address |
| `Receipts.ReceiptIffExecuted` | src/modules/receipt/receipt.worker.ts:268-337 | in every run an address has a receipt if and only if some transaction for it was executed and did not fail for a reason of its own |
| `Receipts.FailedWithReceiptIff` | src/modules/receipt/receipt.worker.ts:337-376 | a notification reported failed has a receipt if and only if a transaction went through before the failure was written or since |
| `Receipts.FailedIsFinalIff` | src/modules/receipt/receipt.service.ts:54-65 | a row reported failed can still become confirmed if and only if another attempt for it is under way |
| `Receipts.FailedWithReceiptHappens` | src/modules/receipt/receipt.worker.ts:337-376 | in both orders some run ends failed, with a receipt and with no attempt under way |
| `SubscriptionGuard.Billing.CanActivate` | src/modules/billing/subscription/subscription.guard.ts:38-116 | the verdict is on the live cache entry or the row, and a row that was read is cached for 30 s; while the cache is coherent it is on the current row |
| `SubscriptionGuard.Billing.RepositoryWrite` | src/modules/billing/repositories/subscription.repository.ts:25-50 | update throws without a row, upsert does not; the row is written and, if Redis answers, the key is gone |
| `SubscriptionGuard.Billing.ServeAll` | src/modules/billing/repositories/subscription.repository.ts:25-92 | one call at a time: unless the last write was direct, every request is judged by the current row as if there were no cache |
| `SubscriptionGuard.AllowedIff` | src/modules/billing/subscription/subscription.guard.ts:83-115 | let through exactly if active, within the period and below the tier's limit; inactive and expired exactly when they apply |
| `SubscriptionGuard.TiersGrowTenfold` | src/modules/billing/billing.service.ts:7-12 | a thousand sends, ten times as many with each paid tier, and a thousand for an unknown one |
| `SubscriptionGuard.EntriesWereRows` | src/modules/billing/subscription/subscription.guard.ts:66-81 | whatever is cached or on its way there was the row when it was read, at most the fill latency before |
| `SubscriptionGuard.DecisionsAreRecent` | src/modules/billing/subscription/subscription.guard.ts:47-81 | every value decided on is the row, or was it at some moment in the last 30 s plus the fill latency |
| `SubscriptionGuard.OldNewsIsKnown` | src/modules/billing/subscription/subscription.service.ts:74-98 | what has held of the row for that long holds of the value decided on, also for writes that delete no key |
| `SubscriptionGuard.LateFillOutlivesTheDelete` | src/modules/billing/subscription/subscription.guard.ts:71-79 | a fill that overtakes a key deletion serves the replaced row for 30 s |
| `SubscriptionGuard.CurrentAfterDeleteIff` | src/modules/billing/repositories/subscription.repository.ts:29-34 | after a write and a later deletion, with no write since, a request sees the row if and only if the last fill since the deletion is dead or not of another value read before the write |
| `SubscriptionGuard.LateDeletionIsEnough` | src/modules/billing/repositories/subscription.repository.ts:29-34 | a deletion that lands later than any fill of an older read can makes every later decision current |
| `SendCounters.Billing.IncrementSendsThisPeriod` | src/modules/billing/overage-metering.service.ts:29-53 | both counters or neither |
| `SendCounters.Billing.ResetSendsThisPeriod` | src/modules/billing/overage-metering.service.ts:58-76 | both counters to zero or neither |
| `SendCounters.Billing.ResetSends` | src/modules/billing/repositories/subscription.repository.ts:80-92 | the subscription counter alone, throwing without a subscription |
| `SendCounters.Billing.ActivateFromHelioPayment` | src/modules/billing/subscription/subscription.service.ts:74-98 | the subscription counter alone, creating the row if needed |
| `SendCounters.CountersMeanSends` | src/modules/billing/overage-metering.service.ts:29-69 | the protocol counter is the sends since the last joint reset, the reported one those since the last reset of any kind |
| `SendCounters.CountersDifferByDropped` | src/modules/billing/overage-metering.service.ts:29-69 | in every reachable state they differ by exactly what subscription-only resets dropped |
| `SendCounters.ProtocolCounterNeverRenews` | src/modules/auth/rate-limit.service.ts:204-206 | without the joint reset the counter behind the monthly quota is all sends ever |
| `SendCounters.SubscriptionService.ExpireStaleSubscriptions` | src/modules/billing/subscription/subscription.service.ts:165-198 | every listed account ends as its two updates go, either of which may throw; no other account changes, and the count is of those where neither did |
| `SendCounters.ExactlyStaleOnesExpire` | src/modules/billing/repositories/subscription.repository.ts:52-64 | with the list the query selects no live subscription changes, every stale one expires unless its first update throws, and the half-expired ones are those whose second did |
| `SendCounters.StaleIsExpiredForGuard` | src/modules/billing/repositories/subscription.repository.ts:52-58 | the query selects exactly the subscriptions that the guard refuses as expired |
| `SendCounters.PaymentsDuringThePass` | src/modules/billing/subscription/subscription.service.ts:165-178 | an account ends subscribed, or switched on, exactly if a payment came after the respective write |
| `Webhook.WebhookWorker.Process` | src/modules/webhook/webhook.worker.ts:52-197 | one attempt has the effect of its steps, records every post, and throws as stated |
| `Webhook.DeliveredByTwoHundreds` | src/modules/webhook/webhook.worker.ts:150 | a post succeeds exactly if it is answered with a two-hundred |
| `Webhook.CountIsFailuresSinceSuccess` | src/modules/webhook/webhook.worker.ts:178-195 | the counter is the failed posts since the last successful one |
| `Webhook.OvershootIsBounded` | src/modules/webhook/webhook.worker.ts:55-78 | with c attempts at once the counter never passes threshold + c - 1, not even with those in flight added |
| `Webhook.OvershootHappens` | src/modules/webhook/webhook.worker.ts:55-78 | for every threshold and c some run reaches that bound |
| `Webhook.DeadStaysDead` | src/modules/webhook/webhook.worker.ts:68-78 | at the threshold with nothing in flight no later run posts, whatever the owner does |
| `Webhook.PostsAgainIffBelowThreshold` | src/modules/webhook/webhook.controller.ts:168-175 | a webhook at rest can post again if and only if its counter is below the threshold |
| `Webhook.NextAttemptDisables` | src/modules/webhook/webhook.worker.ts:68-78 | from the threshold on the next attempt switches the webhook off instead of posting |
| `Webhook.DisabledOnlyAtThreshold` | src/modules/webhook/webhook.worker.ts:68-78 | in every run a webhook that its owner did not switch off is off only if an attempt read a counter at the threshold |
| `SandboxQuota.SandboxService.ValidateSandboxKey` | src/modules/sandbox/sandbox.service.ts:138-161 | allowed if and only if today's count is below the limit |
| `SandboxQuota.SandboxService.IncrementUsage` | src/modules/sandbox/sandbox.service.ts:164-180 | for a test key: time to midnight, then INCR, then EXPIRE, each at its own moment; nothing for another key |
| `SandboxQuota.IncrementEffect` | src/modules/sandbox/sandbox.service.ts:172-180 | the three in one millisecond leave a counter one higher that lives to the end of the day and less than a second more |
| `SandboxQuota.JobsPerDay` | src/modules/notify/notify.service.ts:262-572 | with k requests in flight, in every interleaving, at most limit + k - 1 jobs are added on any day, plus the increments lost and the increments the key forgot that day |
| `SandboxQuota.JobsOnAnOrdinaryDay` | src/modules/sandbox/sandbox.service.ts:172-180 | nothing is forgotten, and limit + k - 1 holds, on a day with no EXPIRE timed on an earlier day and no INCR of an earlier day's key about to die |
| `SandboxQuota.OvershootHappens` | src/modules/notify/notify.service.ts:262-572 | for every limit and k some run without faults adds that many on such a day |
| `SandboxQuota.StaleExpireBreaksTheBound` | src/modules/sandbox/sandbox.service.ts:173-179 | with a stale EXPIRE alone, limit - 1 jobs more than that bound, for every limit and k of at least two |
| `SandboxQuota.CarriedIncrementBreaksTheBound` | src/modules/sandbox/sandbox.service.ts:173-179 | with an INCR of a dying key alone, one job more than that bound, for every limit of at least two and every k |
| `SandboxQuota.YesterdayCarriesOver` | src/modules/sandbox/sandbox.service.ts:173-179 | an increment just after midnight counts on from yesterday exactly while yesterday's key is still live |
| `SandboxQuota.LateExpireForgetsToday` | src/modules/sandbox/sandbox.service.ts:178-179 | the commands alone: an old expiry drops an increment of the new day |
| `SandboxLockout.LockedOutIff` | src/modules/sandbox/sandbox.service.ts:138-152 | at rest a key can add a job at some later time if and only if the limit is not zero and its count is below the limit or has an expiry |
| `SandboxLockout.LockNeedsLostExpiries` | src/modules/sandbox/sandbox.service.ts:178-179 | a run that ends at rest with a locked key has lost at least as many EXPIREs as the limit |
| `SandboxLockout.LockHappens` | src/modules/sandbox/sandbox.service.ts:178-179 | for every limit some run locks the key with exactly that many, one request at a time |
| `Scheduler.TurnIsSteps` | src/modules/notify/scheduler.service.ts:126-203 | one turn of the loop, wherever it throws and whether or not its FAILED is written, is a run of the machine with the stated effect |
| `Scheduler.TurnMeans` | src/modules/notify/scheduler.service.ts:126-203 | a turn leaves completed, pending, failed or running exactly as it threw and as FAILED was written, and a job exactly if its add went through |
| `Scheduler.StatusHasCause` | src/modules/notify/scheduler.service.ts:101-203 | in every run every status has its cause, and a recurring schedule never says completed |
| `Scheduler.RunsAgainIffRecurring` | src/modules/notify/scheduler.service.ts:180-193 | after a turn that did not throw a schedule can run again if and only if it is recurring |
| `Scheduler.RecurringAddsAnyNumber` | src/modules/notify/scheduler.service.ts:180-187 | for every k some run adds k jobs for one recurring schedule |
| `Scheduler.SchedulerService.CancelScheduled` | src/modules/notify/scheduler.service.ts:101-106 | a cancel changes a pending row and no other |
| `Scheduler.SchedulerService.ReconcilePendingJobs` | src/modules/notify/scheduler.service.ts:113-204 | undisturbed, every row of the snapshot ends as its own outcome says, one job each where one is due, no other row changes |
| `Scheduler.OneTimeAddsAtMostOneJob` | src/modules/notify/scheduler.service.ts:126-193 | with crashes and throws anywhere a one-time schedule adds at most one job, none while waiting, and one if it says completed and has a wallet |
| `Scheduler.CancelIsFinalIff` | src/modules/notify/scheduler.service.ts:101-132 | a cancelled schedule can still run if and only if it is still ahead in the reconciler's snapshot |
| `Scheduler.CancelPreventsIff` | src/modules/notify/scheduler.service.ts:101-132 | a pending schedule that is cancelled can run nevertheless if and only if it is in the snapshot already |
| `Scheduler.RunningForEverIff` | src/modules/notify/scheduler.service.ts:113-132 | a row that says RUNNING can still become something else if and only if the reconciler is at it |
| `Scheduler.GetsStuckIff` | src/modules/notify/scheduler.service.ts:128-203 | it is left RUNNING by exactly two events after its mark: a crash, or a throw whose FAILED is not written |
| `Scheduler.StuckIsForever` | src/modules/notify/scheduler.service.ts:194-201 | after either it stays RUNNING and gets no further job; a one-time schedule has a job exactly if its turn had added one |
| `TemplateCache.HashSource` | src/modules/template/mjml-compiler.service.ts:258-266 | the shift-and-subtract loop computes the absolute value of the 32-bit polynomial in 31 |
| `TemplateCache.Sha` | src/modules/template/template.service.ts:659-665 | the multiply loop computes the same signed value |
| `TemplateCache.AppendToPolynomial` | src/modules/template/template.service.ts:661-663 | the sum of code times power of 31 obeys the recurrence both loops use |
| `TemplateCache.NeighboursCollide` | src/modules/template/mjml-compiler.service.ts:258-266 | adding one to a code unit and taking 31 from the next never changes the hash |
| `TemplateCache.KeysAreNotInjective` | src/modules/template/template.service.ts:659-665 | in any surroundings two different sources share both keys |
| `TemplateCache.MjmlCompiler.GetCompiledTemplate` | src/modules/template/mjml-compiler.service.ts:207-239 | the cache is the last 100 insertions in order; the answer has the key of the source, and is its own template unless another source is cached under the key |
| `TemplateCache.TemplateService.GetCompiledTemplate` | src/modules/template/template.service.ts:628-634 | the first delegate compiled under the key; wrong if and only if a different source is cached under it, and never wrong over the whole history if and only if the key tells the sources asked for apart |

## Left out

- Provider, chain and storage SDKs (SES, Resend, SNS, Telegraf, Solana, Light Protocol, KMS, Irys, Helio) are outcomes
  passed in as parameters or events; cryptography, ids and SHA-256 do not appear.
- Handlebars, MJML, DOMPurify and the markdown-to-Telegram regular expressions: a rendered text is an input here, and a
  compiled template is known by its source.
- `detectLinkType` and `detectFormat` are parameters; they only classify.
- JavaScript counts and cuts strings in UTF-16 code units. A Dafny `char` has no surrogates, so it stands for one code
  unit without being able to be each of them; no proof depends on which characters there are. The template hashes, which
  do arithmetic on code units, take numbers below 2^16.
- Telegram's per-chat waiting and its group deduplication, which re-read without counting.
- The time between `Date.now()` and the execution of a command in Redis, and clock differences between machines.
- BullMQ stalls, job retention and its deduplication by `jobId`; a recurring schedule reuses one `jobId`, so an add the
  queue ignores counts as a job in the scheduler's model.
- Two reconcilers at once: the scheduler's bound is for one at a time, as the source intends.
- The monthly quota, batch size and rate-limit headers beyond the remaining allowance.
- `notification.bounce` and `bounceType` flags, diagnostic codes and delivery details of bounces: written, never read here.
- Rows that sandbox requests insert under a production idempotency key; they could only make the unique index refuse more.
- An email suppression written between the worker's clearing of it and the dispatch of the same attempt.
- Deleting a webhook, a schedule or a protocol while one of its jobs is under way.
- Playground keys, which repeat the sandbox quota under other names.
- MailWorker.RetryCountIsThrows: database faults inside an attempt are not modelled, so a status write never fails.
- Receipts.ScanAndProcessIsRound: the five-minute window lock is not modelled; a round is a scan that got the lock.
- SandboxQuota.JobsPerDay: an add that times out and lands later is counted with the lost increments; the lookup of the
  key's type before the count is not a step.
- BounceStreak.AtMostABounceThenAComplaint: histories handle one report at a time, like the SES worker; what overlapping
  reports, as the Resend endpoint allows them, change in this is stated in BounceOverlap. Their other writes, and when a
  row that one report inserts is seen by another's streak query, are not interleaved there.
- SubscriptionGuard.Billing.ServeAll: one call at a time, with the write and the deletion it does not wait for as one step;
  the machine beside it separates them.
- Receipts.FailedWithReceiptIff: the chain may execute a transaction at any time, also one no attempt has sent.
- SubscriptionGuard.Billing.CanActivate: reading and filling are one step there; the machine beside it separates them.
- Receipts.ConfirmedWithoutReceiptIff: the chain accepts a transaction for a free address unless it fails for a reason of
  its own, which is given from outside; proofs and account states are not modelled.
