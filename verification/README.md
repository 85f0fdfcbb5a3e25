# AI serving gateway: verified models

Dafny 4.11 models of the stateful and algorithmic cores of an OpenAI-compatible gateway, with
proofs of what they promise over every input and every sequence of steps. `dafny verify
dfyconfig.toml` checks the whole project.

| file | what it models |
|---|---|
| `PiiSelection.dfy`, `PiiMasking.dfy`, `PiiPrivacy.dfy`, `Luhn.dfy` | redaction of personal data: choice of spans, splicing, placeholder tables of a conversation, what masked text still depends on, card check digits |
| `TokenBucket.dfy`, `MemoryLimiter.dfy`, `RedisLimiter.dfy`, `PreAuth.dfy` | one abstract token bucket, its two implementations, and the throttling of failed authentication |
| `StreamLimiter.dfy`, `StreamLifecycle.dfy` | per-key stream limit, and the life of streamed completions from lease to audit |
| `AuditLedger.dfy`, `AuditReplay.dfy`, `AuditPaging.dfy` | where audit records are at any time, the replay of the fallback file, paging |
| `Text.dfy`, `Scopes.dfy`, `KeyRegistry.dfy`, `ClientIp.dfy` | comma-separated values, scope lists, tenants and their keys, the forwarded-address walk |

## How to read it

Code that changes things step by step is a method or a class with fields; its contract ties it to
a function (`MemStep`, `Render`, `DoRelease`, `After`, ...), and the lemmas about that function
state what holds of every run. Concurrent requests are interleaved atomic steps of a state machine
(`PreAuth.Act`, `StreamLifecycle.Step`, `AuditLedger.Step`, `KeyRegistry.Make`), an action that is
not possible at that point doing nothing, so that a sequence of actions is any interleaving.

The main results:

- **Masking.** The greedy pass picks the unique set in which a detected span is taken iff no taken
  span of strictly higher priority overlaps it; right-to-left splicing equals the left-to-right
  rendering; a whole conversation is masked from one table that numbers the distinct values of each
  type 1..k by first occurrence; later messages never change earlier ones. Conversations that agree
  outside the redacted spans and repeat values at the same places mask to the same text.
- **Rate limits.** On a clock that never goes back both backends answer every run of calls alike,
  although one writes refills on previews and the other lets keys expire. Any stretch of a run
  admits at most the capacity plus the refill over it, and a call is denied exactly when it would
  break that bound. The exact wait after a denied allow or preview is tight. Failed authentication
  is throttled accordingly: nobody gets in before the wait, and whoever waits it out does.
- **Streams.** In every interleaving each stream sends the chunks delivered to it in order and one
  terminal frame, returns its slot exactly once, and is audited once with the matching status and
  usage; a request is refused exactly when its key has the maximum of streams in progress.
- **Audit records.** A finalized record is always in exactly one place; the one exception, a replay
  cut off after a commit, is characterised exactly. Database, fallback file and quarantine hold
  exactly what was committed, what failed to be, and what replays left over.
- **Tenants.** No sequence of key creations, uses and revocations, mixed with anything others do,
  takes an administrator out of its organisation or to `super_admin`.

## Assumptions

- Detectors are any functions whose spans are in order, disjoint, non-empty and carry the text they
  cover (`Faithful`); the accepted spans then have distinct starts, so `sorted(..., reverse=True)`
  is the reverse of the ascending order, and the splice walks that order from its end.
- Limiters use exact reals. `server` is the clock of the Redis server, `now` that of the caller; a
  key is gone from `expiresAt` on. The pre-authentication model is for a positive limit; its
  client keys stand for the prefixed keys of the Redis backend.
- A wait on the upstream ends in a chunk, the end of the stream, a timeout, an `APIError` (status
  400 to 599) or another exception, and a returned body is started. Cancellation before the first
  chunk is outside the handlers and outside the model.
- One event loop: a file append is one step, rename and read of the fallback file are one step,
  each insert is one step that commits or raises. Fallback writes succeed.
- Token hashes stand for tokens. New tokens are not environment keys and not tokens someone else
  already holds.
- Address parsing and network membership are parameters.

## What differs from a first reading of the source

- A replay interrupted while a line is being inserted quarantines that line even if its commit went
  through, so the record is then in the database and in quarantine. `AuditLedger.SurplusComesFromCuts`
  says this is the only way to a second copy, `AuditLedger.CutAfterCommitDoubles` gives an instance.
- With a limit of zero a refused `acquire` leaves an entry in `_semaphores`
  (`StreamLimiter.ZeroLimitLeavesAnEntry`); the settings ask for at least one, and every other
  statement about the limiter is for at least one.
- Prepending text to `X-Forwarded-For` is harmless iff the header already names a valid untrusted
  address (`ClientIp.PrependingHarmlessIff`).

## Model

| member | source | states |
|---|---|---|
| Luhn.LuhnValid | app/compliance/pii.py:41-50 | the right-to-left loop decides whether the positional weighted sum is a multiple of ten |
| Luhn.SingleDigitErrorDetected | app/compliance/pii.py:41-50 | replacing one digit of a valid string of any length keeps it valid iff the digit is the same |
| Luhn.AdjacentTranspositionDetected | app/compliance/pii.py:41-50 | swapping two different neighbours of a valid string goes unnoticed iff they are 0 and 9 |
| Luhn.UniqueCheckDigit | app/compliance/pii.py:41-50 | every prefix has exactly one digit that completes it to a valid string |
| PiiSelection.CollectCandidates | app/compliance/pii.py:101-110 | the two nested loops compute the greedy pass `Selected` |
| PiiSelection.SelectedIsPrioritySelection | app/compliance/pii.py:93-110 | a detected span is selected iff no selected span of strictly higher priority overlaps it; selected spans are pairwise disjoint spans of the text of enabled types |
| PiiSelection.PrioritySelectionUnique | app/compliance/pii.py:93-110 | at most one set of spans obeys that rule |
| PiiSelection.WhoGivesWay | app/compliance/pii.py:11 | detected e-mail addresses are always redacted; resident, card and phone numbers exactly when they overlap no redacted span of the types before them in that order |
| PiiSelection.EveryDetectionRedacted | app/compliance/pii.py:93-110 | every detected span shares a position with a selected one |
| PiiMasking.SortOrders | app/compliance/pii.py:120-134 | sorting disjoint spans by start puts them left to right and keeps exactly those spans |
| PiiMasking.DecimalRoundTrip | app/compliance/pii.py:127 | the index is written as a decimal that denotes it |
| PiiMasking.PlaceholderInjective | app/compliance/pii.py:127 | placeholder texts tell types and indices apart |
| PiiMasking.PlaceholderReads | app/compliance/pii.py:127 | a placeholder reads [REDACTED:TYPE:index], the index in decimal without leading zeros |
| PiiMasking.MaskTables.NumberValues | app/compliance/pii.py:120-127 | the first loop updates counts, indices and placeholders as `RegisterAll` |
| PiiMasking.SpliceRightToLeft | app/compliance/pii.py:129-138 | splicing spans in place from the right gives the left-to-right rendering gap, placeholder, gap, ... |
| PiiMasking.MaskTables.ApplyMask | app/compliance/pii.py:113-138 | new tables are those of the sorted spans, result is the rendering with them |
| PiiMasking.RenderLength | app/compliance/pii.py:129-138 | output length is text length minus span lengths plus placeholder lengths |
| PiiMasking.GapsAreTheUncoveredText | app/compliance/pii.py:129-138 | with placeholders blanked out the result is exactly the characters outside the spans, in order |
| PiiMasking.RegisteringDescribes | app/compliance/pii.py:120-127 | after any stream of spans the counts are the numbers of spans per type, and the i-th distinct value of a type carries index i, nothing else being named |
| PiiMasking.DistinctInFirstOccurrenceOrder | app/compliance/pii.py:123-127 | the numbered values are distinct and in the order of their first occurrences |
| PiiMasking.NamesInjective | app/compliance/pii.py:122-127 | two redacted values share a placeholder iff they are the same value of the same type |
| PiiMasking.MaskMessages | app/compliance/pii.py:159-186 | every message is masked from the one table of the whole conversation, for the types the configuration names; roles kept; the counts are the spans replaced per type, without zero entries |
| PiiMasking.MaskText | app/compliance/pii.py:141-156 | a text is masked like the only message of a conversation; counts are those of its selected spans |
| PiiMasking.EnabledIffNamed | app/compliance/pii.py:142 | a type is enabled iff its name, "email", "rrn", "card" or "phone", is listed |
| PiiMasking.NamedTypesAreMasked | app/compliance/pii.py:159-186 | every span a detector of a named type reports in a message shares a position with a replaced one |
| PiiMasking.OnlyNamedTypesAreMasked | app/compliance/pii.py:163-172 | only reported spans of named types are replaced |
| PiiMasking.UnknownNameIgnored | app/compliance/pii.py:163 | an unknown name changes nothing |
| PiiMasking.MaskingIsCausal | app/compliance/pii.py:170-186 | the masked conversation is a prefix of the masked form of any extension |
| PiiPrivacy.MaskingHidesValues | README.md:130 | masking is irreversible: the masked conversation depends on redacted values only through their types and on which of them are equal |
| PiiPrivacy.SamePlaceholder | app/compliance/pii.py:120-127 | spans at the same place of two streams with the same types and repetitions get the same placeholder |
| TokenBucket.RefillTwice | app/ratelimit/memory.py:38-41 | refilling to t1 and then to t2 is refilling to t2 |
| TokenBucket.RunInRange | app/ratelimit/redis.py:37-57 | tokens stay between 0 and the capacity in every run, for arbitrary clock readings |
| TokenBucket.WindowBound | app/ratelimit/redis.py:37-57 | for arbitrary clock readings any stretch of calls admits at most the capacity plus the refill over the forward steps between its allow calls |
| TokenBucket.MonotoneWindowBound | app/ratelimit/memory.py:38-41 | within [from, to] at most capacity + (to - from) × refill admissions |
| TokenBucket.DeniedIffWindowFull | app/ratelimit/redis.py:37-57 | in every run, for arbitrary clock readings, a call is denied iff admitting it would break the window bound for some stretch of calls ending with it |
| TokenBucket.FullWindowIsEarned | app/ratelimit/redis.py:46-53 | nobody is denied before using up the capacity |
| TokenBucket.RemainingIsExact | app/ratelimit/redis.py:50-60 | a result reporting n tokens left is followed, at the same time, by exactly n admissions |
| TokenBucket.MinuteBound | app/ratelimit/memory.py:24-28 | for a limiter built for rpm the window bound is rpm + elapsed × rpm / 60 |
| TokenBucket.RetryAdviceExact | app/ratelimit/redis.py:50-55 | after a denial by allow or preview, if nothing is admitted on the key meanwhile, a later call is allowed iff the exact wait has passed; a preview, which writes nothing, must not be dated before the stored bucket |
| TokenBucket.HeaderCoversWait | app/ratelimit/base.py:51 | the Retry-After header is at least the exact wait and at least 1, and less than one second above the larger of the wait and 1 |
| MemoryLimiter.InMemoryRateLimit.RefillBucket | app/ratelimit/memory.py:30-41 | refills the stored or new bucket in place; an unseen key is created only on request |
| MemoryLimiter.InMemoryRateLimit.Preview | app/ratelimit/memory.py:57-65 | new buckets and result are those of the step function; a limit of zero or less answers without state |
| MemoryLimiter.InMemoryRateLimit.Allow | app/ratelimit/memory.py:67-84 | likewise, consuming a token when allowed |
| MemoryLimiter.RunRefines | app/ratelimit/memory.py:30-84 | on a clock that never goes back every run answers like the abstract bucket: same decision, same Retry-After header, same remainder unless infinite |
| MemoryLimiter.MemoryInRange | app/ratelimit/memory.py:38-41 | tokens stay between 0 and the capacity in every run |
| MemoryLimiter.MemoryWindowBound | app/ratelimit/memory.py:67-84 | between any two times of any run a key gets at most capacity + elapsed × refill admissions |
| MemoryLimiter.MemoryRetrySound | app/ratelimit/memory.py:50-55 | in every run, after a denied allow or preview, waiting out the advertised Retry-After suffices, if nothing is admitted on the key meanwhile |
| MemoryLimiter.MemoryDeniedIffWindowFull | app/ratelimit/memory.py:67-84 | in every run a call is denied iff admitting it would break the window bound |
| MemoryLimiter.MemoryRemainingIsExact | app/ratelimit/memory.py:43-55 | a finite remainder is the number of calls that still succeed at that time |
| MemoryLimiter.InfiniteIffUnseen | app/ratelimit/memory.py:57-65 | the remainder is infinite iff the call previews a key no allow call has named |
| RedisLimiter.RedisTokenBucketRateLimit.ReadTokens | app/ratelimit/redis.py:28-45 | the shared part of both scripts yields the level of the live bucket on a clamped clock, the capacity if there is none |
| RedisLimiter.RedisTokenBucketRateLimit.Allow | app/ratelimit/redis.py:21-61 | new store and result are those of the step function, which takes one token per admission, expiry reset |
| RedisLimiter.RedisTokenBucketRateLimit.Preview | app/ratelimit/redis.py:63-98 | same answer as the step function, store untouched |
| RedisLimiter.ExpiryUnobservable | app/ratelimit/redis.py:58 | on one clock every run with 300-second expiry returns exactly the results of the run whose buckets never expire |
| RedisLimiter.BackendsAgree | app/ratelimit/redis.py:28-60 | both backends give the same decisions and Retry-After headers on every run of allow and preview calls over any keys |
| RedisLimiter.RedisRetryTight | app/ratelimit/redis.py:50-55 | in every run on one clock, after a denied allow or preview with nothing admitted meanwhile, a call is allowed iff the unrounded wait has passed |
| RedisLimiter.RedisDeniedIffWindowFull | app/ratelimit/redis.py:37-58 | on one clock a call is denied iff admitting it would break the window bound, expiry notwithstanding |
| RedisLimiter.RedisRemainingIsExact | app/ratelimit/redis.py:50-60 | a reported remainder is the number of calls that still succeed at that time |
| RedisLimiter.RedisDenialIsEarned | app/ratelimit/redis.py:28-58 | for any clocks and expiries nobody is denied before using up the capacity |
| RedisLimiter.RedisInRange | app/ratelimit/redis.py:37-57 | stored tokens stay between 0 and the capacity for any clocks and expiries |
| RedisLimiter.RedisWindowBound | app/ratelimit/redis.py:37-57 | from any point of any run with arbitrary clocks, a stretch in which the bucket does not expire between two of its allow calls admits at most the capacity plus the refill over its forward steps |
| RedisLimiter.RedisOneClockWindowBound | app/ratelimit/redis.py:37-58 | on one clock the bound holds for every stretch, expiries included |
| PreAuth.Sent401IsTokensTaken | app/middleware.py:93-113 | with either backend and any clocks, in every interleaving the 401 responses to a client are as many as the tokens taken from its bucket, and the limiter sees exactly the calls made |
| PreAuth.Sent401WindowBound | app/middleware.py:93-113 | with either backend, between any two times of any interleaving a client gets at most capacity + elapsed × refill 401 responses |
| PreAuth.OneResponseEach | app/middleware.py:93-113 | request by request: arrivals of a request from a client are the responses sent to it, plus one while it is in flight |
| PreAuth.ArrivalGate | app/middleware.py:103-107 | in every interleaving, with either backend, an arrival is answered 429 at once and never goes in iff one more 401 would break the window bound, that is, iff its bucket holds less than a token; otherwise it goes in and nothing is sent |
| PreAuth.NoEntryBeforeTheWait | app/middleware.py:103-107 | from the moment a client's bucket holds less than a token, none of its requests reaches the application and no 401 is sent to it before the exact wait is over |
| PreAuth.OtherResponsesPass | app/middleware.py:107-113 | responses other than 401 reach the client unchanged, exactly those the application gave |
| PreAuth.OnlyChargesConsume | app/middleware.py:103-113 | in every interleaving the charges of a client are the 401 responses the application gave it, less those still waiting, and tokens are only taken by charges |
| PreAuth.OtherTrafficIsFree | app/middleware.py:103-113 | in every interleaving in which the application answers a client no 401, no 401 is sent to it and its bucket stays as it was |
| PreAuth.RetryAfterIsSound | app/middleware.py:103-117 | a client sent a 429, on arrival or on being charged, is let through once it has waited out the Retry-After header, if no 401 went to it meanwhile |
| PreAuth.RetryAfterIsTight | app/middleware.py:115-124 | the Retry-After of a 429 is the exact wait rounded up, and at least 1 |
| StreamLimiter.AcquireConsistent | app/streaming.py:26-38 | acquire fails iff the key holds the maximum, and keeps both dictionaries consistent with the live leases |
| StreamLimiter.ReleaseConsistent | app/streaming.py:40-62 | the first release returns the slot, later ones do nothing, the defensive exits are never taken, consistency is kept |
| StreamLimiter.RunConsistent | app/streaming.py:26-62 | after any operations: counts equal unreleased leases and are at most the maximum, permits plus active make the maximum, both dictionaries hold exactly the keys with live leases |
| StreamLimiter.NothingLeaks | app/streaming.py:56-60 | once every lease is released both dictionaries are empty |
| StreamLimiter.ZeroLimitLeavesAnEntry | app/streaming.py:28-34 | with a limit of zero a refused key stays in one dictionary |
| StreamLimiter.StreamConcurrencyLimiter.AcquireLease | app/streaming.py:26-38 | dictionaries and leases change as `DoAcquire`; a lease is returned iff one is granted |
| StreamLimiter.StreamConcurrencyLimiter.ReleaseLease | app/streaming.py:40-62 | dictionaries and the lease change as `DoRelease`, also on repeated releases |
| StreamLifecycle.RelayChunks | app/routers/chat.py:143-166 | one frame per chunk in order, and the usage of the last chunk that carries one |
| StreamLifecycle.StreamChunks | app/routers/chat.py:120-231 | a drained generator sends its chunks and the one terminal frame, leaves the matching audit status and usage, and releases its lease |
| StreamLifecycle.GeneratorIsMachineRun | app/routers/chat.py:120-231 | the steps of one stream taken in a row give the frames, audit and release that the generator promises, and touch no other request |
| StreamLifecycle.RunKeeps | app/routers/chat.py:303-343 | every interleaving keeps the limiter consistent, every request in order, and every lease owned by exactly one request and live exactly until that request lets go of it |
| StreamLifecycle.OpenedFollows | app/routers/chat.py:303-343 | in every interleaving a request holds exactly the chunks the schedule delivered to it before the first wait without a chunk or its client's leaving, and was ended by that wait |
| StreamLifecycle.DrainedStreamOutcome | app/routers/chat.py:143-231 | in every interleaving a stream that began and whose upstream ended sent exactly the chunks delivered to it, in order, then the one terminal frame of the wait that ended it; slot returned once, audited once: 200 with the last usage iff the frame is [DONE], else 504, the API error's status or 500 and no usage |
| StreamLifecycle.EveryEndReleasesOnce | app/routers/chat.py:304-329 | in terms of the delivered waits: refused requests are audited 429, a failed first wait with its own status, and a stream is abandoned iff no delivered wait ended it, having sent the chunks delivered so far; every lease is returned once |
| StreamLifecycle.LimitHeldAndNothingLeaks | app/routers/chat.py:229-231 | streams in progress never exceed the limit, and when all requests are closed the limiter is empty |
| StreamLifecycle.RefusedIffFull | app/routers/chat.py:303-306 | in every interleaving a request is refused iff the maximum of streams of its key is in progress when it comes in |
| StreamLifecycle.RequestStands | app/routers/chat.py:303-343 | a request is waiting, answered or over as the schedule says; a granted stream holds its slot exactly while it is waiting |
| AuditLedger.RunConserves | app/observability.py:111-134 | every step keeps: copies of a record over all places equal its finalizations plus its cuts after commit |
| AuditLedger.ExactlyOnePlace | app/routers/admin.py:498-541 | in every interleaving without a cut after commit, a record is in as many places as the schedule finalizes it times; finalized once, in exactly one of pending insert, database, fallback file, running replays, quarantine |
| AuditLedger.NeverLost | app/routers/admin.py:516-541 | for every interruption nothing is lost, and a record with more copies than finalizations is in both database and quarantine |
| AuditLedger.SurplusComesFromCuts | app/routers/admin.py:528-541 | a step adds a surplus copy iff it is an interruption after the commit of that record's line, and then exactly one |
| AuditLedger.CutAfterCommitDoubles | app/routers/admin.py:528-541 | a run from the empty ledger that puts a record finalized once in two places |
| AuditLedger.DatabaseIsCommits | app/observability.py:120-126 | in every run the database holds exactly the rows committed by inserts, replayed lines and cuts after commit, so a committed record is there in all later states |
| AuditLedger.FileIsFailedInserts | app/audit_fallback.py:11-16 | in every run the snapshots of all replays followed by the fallback file are exactly the lines of the failed inserts, each once, in the order of the failures |
| AuditLedger.QuarantineIsLeftovers | app/routers/admin.py:538-541 | in every run the quarantine file is exactly what ended replays had not inserted, replay after replay |
| AuditLedger.InsertLands | app/observability.py:111-134 | at any point of any run a committed insert puts its record in the database for good and leaves the fallback file alone, a failed one adds exactly its line at the end of that file |
| AuditLedger.NoFailureNoFiles | app/observability.py:120-134 | while all inserts commit there is no fallback line, no replay and no quarantine |
| AuditReplay.AuditStore.WriteFallback | app/audit_fallback.py:11-16 | appends one line, creating the file if need be |
| AuditReplay.AuditStore.InsertAuditLog | app/observability.py:111-134 | the record goes to the database or to the end of the fallback file, never both |
| AuditReplay.ProcessSnapshot | app/routers/admin.py:521-537 | the loop commits the rows, counts and sets aside lines as `After` and `Inserted` say, up to the end or the cut |
| AuditReplay.AuditStore.Replay | app/routers/admin.py:485-543 | takes the file away, adds the inserted rows to the database and the leftover lines to quarantine, returns the counters or is interrupted; no file means nothing happens |
| AuditReplay.QuarantineKeepsFileOrder | app/routers/admin.py:538-540 | for every interruption point quarantine gets exactly the non-blank lines not counted as inserted, at their positions in file order |
| AuditReplay.KeptAscending | app/routers/admin.py:229-238 | those positions ascend |
| AuditReplay.InsertedOrQuarantined | app/routers/admin.py:523-540 | each non-blank line is counted as inserted or quarantined, never both, and the line in flight at a cut is quarantined |
| AuditReplay.CompletedReplayAccounts | app/routers/admin.py:516-543 | on normal return replayed + failed is the number of non-blank lines, and they count the rows inserted and the lines quarantined |
| AuditReplay.ReplayIsLedgerRun | app/routers/admin.py:516-541 | a whole replay, cut or not, does to database and quarantine what its ledger steps do |
| AuditReplay.InsertIsLedgerStep | app/observability.py:111-134 | what `InsertAuditLog` promises of database and files is the ledger's insert step |
| AuditReplay.TakingIsLedgerStep | app/routers/admin.py:498-512 | taking the fallback file away is the ledger's start of a replay over the whole file |
| AuditPaging.PagesCoverTheLog | app/routers/admin.py:322-365 | following next_offset ends and visits every row exactly once in order |
| AuditPaging.NoEmptyPage | app/routers/admin.py:343-365 | every page but the last is full, and none is empty unless there are no rows |
| Text.SplitAtComma | app/net.py:40 | the pieces of a + "," + b are those of a followed by those of b |
| Text.ItemsOfJoin | app/routers/admin.py:184-185 | joining items with commas and reading them back gives the same list |
| Text.StripCutsSpaces | app/net.py:40 | stripping takes away spaces at both ends and nothing else |
| Scopes.NormalizeScopes | app/routers/admin.py:110-123 | the nested loops yield the first occurrences of all stripped non-empty pieces, or an error if there are none |
| Scopes.NormalizedProps | app/routers/admin.py:110-123 | the result lists exactly the requested scopes, without duplicates, each stripped and comma-free |
| Scopes.NormalizedInOrder | app/routers/admin.py:110-123 | the result is in the order of first occurrences |
| Scopes.StoredScopesReadBack | app/auth.py:68-70 | a stored list is read back exactly, as the list by the key listing and as its set by authentication |
| Scopes.ParsedScopes | app/auth.py:68-70 | a column gives the scopes it lists, and the chat scope if it lists none |
| Scopes.GrantRoundTrip | app/routers/admin.py:396-406 | normalize, filter, join, parse yields exactly the requested scopes other than super_admin, for every list of entries |
| KeyRegistry.TenantCreates | app/routers/admin.py:397-419 | creation by a non-super admin changes nothing or adds one key of its organisation that never reads back as super_admin |
| KeyRegistry.CreatedKeyWorks | app/auth.py:96-123 | a new key authenticates with its organisation and exactly the requested scopes, super_admin only if the creator had it |
| KeyRegistry.RevokedKeyIsDead | app/routers/admin.py:446-453 | after a revocation, and any sequence of moves by anyone, the token authenticates at most as an environment key |
| KeyRegistry.KeyWorksUntilRevoked | app/auth.py:96-123 | after any sequence of moves by anyone, an unrevoked key authenticates with the organisation and scopes it was stored with |
| KeyRegistry.EnvKeysAreBootstrap | app/auth.py:47-58 | without a stored key, or without the database, a token is good iff it is an environment key, a super admin of no organisation |
| KeyRegistry.AdminScopeRequired | app/auth.py:244-249 | without the admin scope all three operations are refused and change nothing |
| KeyRegistry.CreateSucceedsIff | app/routers/admin.py:389-432 | a key is created iff an admin asks for its own organisation or is a super admin, with a scope it may hand out, for an existing organisation, under a new id and hash |
| KeyRegistry.RevokeSucceedsIff | app/routers/admin.py:440-455 | a key is revoked iff an admin of its organisation or a super admin asks, and then it alone changes |
| KeyRegistry.CreateOrgSucceedsIff | app/routers/admin.py:368-386 | an organisation is created iff a super admin asks and it is new; no key changes |
| KeyRegistry.UseIsDebounced | app/auth.py:85-115 | a key use writes its own time stamp iff the interval has passed since the last one written or is zero, and nothing else |
| KeyRegistry.MoveConfined | app/routers/admin.py:389-455 | any move keeps the tenant's tokens within its organisation and without super_admin; its own moves leave other organisations' keys alone |
| KeyRegistry.CreatedTokenIsHeld | app/routers/admin.py:424-432 | the tenant holds the token of every key it creates, and loses none |
| KeyRegistry.NoEscalation | app/auth.py:96-123 | after any sequence of moves, whatever the tenant authenticates as is of its organisation and not a super admin |
| KeyRegistry.NoAdminWithoutAdmin | app/auth.py:244-249 | a tenant that starts without the admin scope never obtains it, after any sequence of moves |
| KeyRegistry.NoCrossTenantChange | app/routers/admin.py:397-453 | any sequence of the tenant's moves leaves organisations and the keys of other organisations unchanged |
| ClientIp.IsTrustedProxy | app/net.py:9-24 | true iff the address parses and some non-blank entry is a network containing it |
| ClientIp.GetClientIp | app/net.py:27-56 | the loops compute `Resolved`, all early exits included |
| ClientIp.HeaderIgnored | app/net.py:27-38 | without trust in forwarding, behind no trusted proxy or without a valid hop, the result is the remote address for every header |
| ClientIp.HeaderDecides | app/net.py:40-56 | behind a trusted proxy a header with a valid hop decides, and the result is one of its valid entries |
| ClientIp.WalkFindsRightmostUntrusted | app/net.py:52-56 | the result is the untrusted hop with only trusted hops to its right, else the leftmost hop |
| ClientIp.RightmostUntrustedUnique | app/net.py:52-54 | there is at most one such hop |
| ClientIp.PrependingIsHarmless | app/net.py:40-56 | if the header names a valid untrusted hop, prepending any text and a comma never changes the client address |
| ClientIp.PrependingHarmlessIff | app/net.py:40-56 | and only then, as soon as two different addresses exist |

## Left out

- Regular expressions, calendar checks of resident numbers and rule counting: detectors are parameters.
- Provider adapters, HTTP, JWT validation, hashing, SQL grouping of usage, pricing, logging, settings parsing and error bodies: foreign or only easy members.
- Floating-point rounding and the decimal text of numbers in the Redis scripts: exact reals instead.
- Several worker processes sharing the fallback file, failing fallback writes and a snapshot that cannot be read.
- Cancellation before the first chunk of a stream, and bodies that are never iterated.
- Leases handed to a limiter that did not issue them.
- Organisation names and ids are one value; key names, prefixes and creation times are not modelled.
- Filters of the audit listing: paging is over the rows they select, in a stable order (the query orders by time stamp only).
- The Memory and Redis classes keep bucket values in a map; that Python buckets are shared objects is not modelled, no other reference to them exists.
- Policy events and stored messages inserted with an audit record; on failure only the audit record itself is kept, as in the source.
