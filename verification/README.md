# urlshortener core in Dafny

A model of the business core of the URL shortener. It covers three parts.

- **LinkService** (`internal/services/link_service.go`):
  - `GenerateShortCode` draws `length` symbols from the 62-character alphabet `[a-zA-Z0-9]`; `CreateLink` asks for 6.
  - `CreateLink` runs up to five generate-and-look-up rounds, then a post-loop check, then the insert.
  - `GetLinkByShortCode` and `GetLinkStats` are the two read paths.
- **The click worker** (`internal/workers/click_workers.go`):
  - It turns each dequeued `ClickEvent` into a `Click` and drops events whose link key is zero.
  - It persists each remaining click with up to three `CreateClick` calls, pausing 100 ms and then 200 ms between them.
  - `StartClickWorkers` numbers the workers 1..n.
- **ClickService** (`internal/services/click_service.go`): the guard chains of `RecordClick` and `GetClicksCountByLinkID`.

## Files

| file | contents |
|---|---|
| `wrappers.dfy` | `Option` and `Result` |
| `models.dfy` | the records `Click`, `ClickEvent` and `Link`, the errors the core reports, and the event-to-click conversion |
| `repository.dfy` | one `Database` class that both repository interfaces share, the `LinkRepository` and `ClickRepository` classes, and the lookup and count functions |
| `link_service.dfy` | `LinkService` as written |
| `link_service_corrected.dfy` | `CreateLink` as its own doc comment and its `break` intend it (see Findings) |
| `click_workers.dfy` | the worker |
| `click_service.dfy` | the click service |

## How the model represents the environment

- **The database** is a class with fields that its methods update:
  - `links` and `clicks` are sequences in primary-key order;
  - a lookup error or count error can be set in advance (`lookupFault`, `countFault`);
  - the outcomes of the coming inserts are a queue (`writeFaults`); once the queue is empty, every insert succeeds;
  - `clickCalls` is a ghost trace of every click handed to `CreateClick`.
- **`crypto/rand`** is an oracle `rng: nat -> Draw` read from a cursor `pos`. Round `i` of `CreateLink` reads draws `pos + 6*i` onward.
- **`time.Now().Unix()`** is the parameter `now`.
- **`time.Sleep`** calls are returned as a list of durations in milliseconds.
- **Log lines** are a ghost trace.

**How each operation is specified.** Each looping or state-changing operation is a method proved equal to a specification function:
- `SearchShortCode` and `CreateLink` are proved against `SearchResult` and `PostLoop`. These read the loop's outcome off `FirstFreeRound`, the first round that is not a collision.
- `PersistClick` is proved against `Persist`, which reads the attempts off the run of failed writes at the head of the queue.
- `ClickWorker` is proved against `Drain`.

Lemmas then state what those functions promise.

**Where `CreateLink`'s stated intent and its code disagree**, the model follows the code. The doc comment at `link_service.go` lines 47-48 promises a unique short code, and the `break` at line 64 ends the search on the first code the lookup does not find. But the error from that lookup is still set when the check at line 73 runs. Findings records the gap, and `LinkServicesCorrected` models the intended behaviour.

## Model

| member | source | states |
|---|---|---|
| Models.ToClick | internal/workers/click_workers.go:36-41 | the click carries the event's link key, timestamp, user agent and IP, and its key is 0 (`EventOf(c) == e`) |
| Models.ToClickInvertsEventOf | internal/models/click.go:7-21 | a keyless click survives conversion to its event and back |
| Models.ToClicks | internal/workers/click_workers.go:34-41 | converting a run of events keeps its length and converts each event in place |
| Repository.FirstWithCode | internal/repository/link_repository.go:24-30 | a lookup returns the earliest row with the code; it returns none iff no row carries it |
| Repository.LookupMeaning | internal/repository/link_repository.go:24-30 | with no store error: `RecordNotFound` iff no row carries the code, and a hit is the first such row |
| Repository.Lookup | internal/repository/link_repository.go:24-30 | the configured store error; with none, a hit or `RecordNotFound`; a hit is a stored row carrying the code |
| Repository.LookupDetermined | internal/repository/link_repository.go:24-30 | any result with the lookup's error, miss and first-row properties is the lookup's result |
| Repository.LinkRepository.constructor | internal/repository/link_repository.go:16-18 | the repository holds the database it was given |
| Repository.CountFor | internal/repository/click_repository.go:41-48 | the count is at most the number of rows; it is zero iff no click carries the key |
| Repository.CountForAppend | internal/repository/click_repository.go:41-48 | counting distributes over appended rows |
| Repository.LinkRepository.CreateLink | internal/repository/link_repository.go:20-22 | an insert consumes one write outcome. On failure it returns the store error and leaves links unchanged. On success it appends the link with the next key. |
| Repository.LinkRepository.GetLinkByShortCode | internal/repository/link_repository.go:24-30 | the store error when one is set; otherwise a hit or `RecordNotFound`, a miss iff no row carries the code, and a hit is the first row with the code |
| Repository.LinkRepository.CountClicksByLinkID | internal/repository/link_repository.go:40-46 | the count error when one is set; otherwise the number of click rows with the key |
| Repository.ClickRepository.constructor | internal/repository/click_repository.go:25-27 | the repository holds the database it was given |
| Repository.ClickRepository.CreateClick | internal/repository/click_repository.go:31-37 | one call is traced and consumes one write outcome. The click is appended iff the write succeeds; otherwise the store error is returned. |
| Repository.ClickRepository.CountClicksByLinkID | internal/repository/click_repository.go:41-48 | the count error when one is set; otherwise the number of click rows with the key |
| LinkServices.CharsetAt | internal/services/link_service.go:18 | alphabet position i holds the i-th symbol of the runs a-z, A-Z, 0-9 |
| LinkServices.CharsetIsAlphanumeric | internal/services/link_service.go:18 | the alphabet has 62 symbols, none repeated, and they are exactly the ASCII letters and digits |
| LinkServices.DrawsOkAt | internal/services/link_service.go:36-40 | when all reads of a code succeed, each single read succeeds |
| LinkServices.Spell | internal/services/link_service.go:35-43 | n successful reads spell a code of length n |
| LinkServices.SpellAt | internal/services/link_service.go:36-41 | symbol i of a generated code is the one read i selects |
| LinkServices.SpelledCodeIsAlphanumeric | internal/services/link_service.go:36-43 | every symbol of a generated code is in the alphabet, so it is alphanumeric |
| LinkServices.LinkService.constructor | internal/services/link_service.go:28-32 | the service holds the link repository it was given |
| LinkServices.LinkService.GenerateShortCode | internal/services/link_service.go:34-44 | succeeds iff every read succeeds. On success the code spells the reads in order. A failed read gives `""` and the entropy error. |
| LinkServices.FirstFreeRound | internal/services/link_service.go:54-70 | every round before the result collides, and the result (when below 5) does not |
| LinkServices.FirstFreeRoundIs | internal/services/link_service.go:54-70 | those two properties single out the first free round |
| LinkServices.Candidate | internal/services/link_service.go:55 | each round's candidate is six symbols long |
| LinkServices.SearchResult | internal/services/link_service.go:54-70 | the loop leaves with a six-symbol code and either no error or `RecordNotFound`, or it returns early with the entropy error or a uniqueness-check error carrying the configured store error |
| LinkServices.RoundsUsed | internal/services/link_service.go:54-70 | the loop runs one to five rounds |
| LinkServices.PostLoop | internal/services/link_service.go:73-81 | a link is planned iff the loop left without an error; a leftover error gives the exhaustion error; an early return passes its error on. The planned link has key 0, the long URL, `"/"` plus the code, and `now`. |
| LinkServices.SearchStopsAt | internal/services/link_service.go:55-67 | the loop stops in the first non-colliding round: a failed read aborts; a not-found exits with the error still set; any other store error aborts |
| LinkServices.SearchRunsOut | internal/services/link_service.go:54-70 | five collisions leave the loop with the fifth candidate and no error |
| LinkServices.LinkService.SearchShortCode | internal/services/link_service.go:50-70 | the loop computes `SearchResult` against the store it reads, in 1 to 5 rounds |
| LinkServices.LinkService.CreateLink | internal/services/link_service.go:49-87 | a loop failure returns that failure and leaves the store untouched. Otherwise one insert follows: a write failure is wrapped as a creation error and keeps the links; a successful write appends the planned link with its new key. Clicks, the click trace and the read errors are kept. |
| LinkServices.LinkService.GetLinkByShortCode | internal/services/link_service.go:91-93 | the store error when one is set. Found iff some link carries the code; otherwise `RecordNotFound`. A hit is the first link carrying the code. |
| LinkServices.LinkService.GetLinkStats | internal/services/link_service.go:97-109 | a lookup error or miss is wrapped as a retrieval error; a count error is wrapped as a counting error. Success iff both reads work and some link carries the code. Then the result is the link the lookup returns (the first with the code) and the number of clicks for its key. |
| LinkServices.InsertOnlyAfterFiveCollisions | internal/services/link_service.go:60-81 | as written, an insert happens only after all five rounds collide, and it stores `"/"` plus the fifth candidate, a code the lookup found taken |
| LinkServices.ExhaustionMeansFreeCode | internal/services/link_service.go:62-75 | as written, the exhaustion error is returned iff some round found a free code |
| LinkServices.SlashedStoreNeverGetsALink | internal/services/link_service.go:60-81 | as written, against a store whose codes all start with `/`, CreateLink never inserts: one round, then exhaustion or the entropy error |
| LinkServicesCorrected.IntendedSearch | internal/services/link_service.go:54-75 | a code handed out is six symbols long and found with a working lookup; a failure is exhaustion, the entropy error, or a uniqueness-check error carrying the configured store error |
| LinkServicesCorrected.IntendedCodeIsFree | internal/services/link_service.go:54-70 | the intended loop hands out only a six-symbol alphanumeric code that no stored link carries |
| LinkServicesCorrected.IntendedExhaustion | internal/services/link_service.go:54-75 | the intended loop gives up iff all five rounds collide |
| LinkServicesCorrected.OutcomesSwapped | internal/services/link_service.go:54-81 | the as-written loop gives up iff the intended one finds a code, and inserts iff the intended one gives up; every other error is the same |
| LinkServicesCorrected.AppendFreshKeepsUnique | internal/services/link_service.go:77-86 | appending a link with a free code keeps short codes unique |
| LinkServicesCorrected.SearchFreeCode | internal/services/link_service.go:50-75 | the corrected loop computes `IntendedSearch` against the store it reads |
| LinkServicesCorrected.CreateLinkIntended | internal/services/link_service.go:49-87 | on any store, inserts the free code as generated, and keeps the short codes unique when they were unique before; the failure paths leave the store untouched, and the insert path keeps clicks, the click trace and the read errors |
| ClickWorkers.LeadingFails | internal/workers/click_workers.go:52-58 | counts the failed writes before the first success, capped at three; the next write after them succeeds |
| ClickWorkers.LeadingFailsIs | internal/workers/click_workers.go:52-58 | a run of n failures followed by a success (or the cap) is exactly what is counted |
| ClickWorkers.Backoffs | internal/workers/click_workers.go:51-66 | n pauses, the i-th being 100 ms times 2 to the i |
| ClickWorkers.AfterWrites | internal/workers/click_workers.go:53 | the write queue after n inserts |
| ClickWorkers.FailureLogAt | internal/workers/click_workers.go:61 | failure line j reports attempt j + 1 and the error of write j |
| ClickWorkers.Persist | internal/workers/click_workers.go:50-72 | one to three calls, three when the click is abandoned; one log line per attempt, plus one when abandoned |
| ClickWorkers.PersistSavedAt | internal/workers/click_workers.go:52-58 | when attempt a is the first success: a calls, a - 1 pauses and failure lines, then the saved line |
| ClickWorkers.PersistAbandonedAt | internal/workers/click_workers.go:52-72 | when three writes fail: three calls, pauses [100, 200], three failure lines, then the abandonment line with the third error |
| ClickWorkers.PersistLog | internal/workers/click_workers.go:56-71 | every line but the last reports a failed write with its attempt number and error, in order; the last says saved or abandoned with the last error |
| ClickWorkers.PersistClick | internal/workers/click_workers.go:50-72 | the retry loop computes `Persist`. The click is handed over once per attempt and stored iff one attempt succeeds. |
| ClickWorkers.ClickWorker | internal/workers/click_workers.go:34-73 | draining the events computes `Drain`. The store grows by the stored clicks; the call trace grows by every attempted click. |
| ClickWorkers.Drain | internal/workers/click_workers.go:34-73 | every event leaves at least one log line |
| ClickWorkers.StartClickWorkers | internal/workers/click_workers.go:15-20 | the workers started have ids 1..n, and there are none for n <= 0 |
| ClickWorkers.PersistBounds | internal/workers/click_workers.go:52-66 | one to three calls, with exactly one pause between consecutive calls; the pauses are a prefix of [100, 200] |
| ClickWorkers.PersistStopsAtFirstSuccess | internal/workers/click_workers.go:52-58 | stored iff one of the first three writes succeeds; on success the attempts stop at the first successful write |
| ClickWorkers.AllAttemptsFailAbandons | internal/workers/click_workers.go:52-72 | three failures give three calls and pauses [100, 200]. There are three failure lines and one abandonment line carrying the last error. Nothing is stored or re-queued. |
| ClickWorkers.FailFailSucceed | internal/workers/click_workers.go:51-66 | fail, fail, succeed gives three calls, pauses [100, 200], two failure lines and one insert |
| ClickWorkers.PersistOnEmptyQueue | internal/workers/click_workers.go:53-57 | a store with no failures takes the click at the first call, without any pause |
| ClickWorkers.ValidEvents | internal/workers/click_workers.go:44-47 | the events kept have non-zero keys and are drawn from the input |
| ClickWorkers.NeverFailingStoreNeverRetries | internal/workers/click_workers.go:52-57 | with a store that never fails: one call per stored click, no pause, and the write queue stays empty |
| ClickWorkers.NeverFailingStoreStoresEveryValidEvent | internal/workers/click_workers.go:34-57 | with a store that never fails: exactly the converted events with non-zero keys are stored, in dequeue order, one call each, with no pause |
| ClickWorkers.ToClicksAppend | internal/workers/click_workers.go:36-41 | conversion distributes over concatenated runs of events |
| ClickWorkers.DrainCallBound | internal/workers/click_workers.go:44-53 | at most three calls per valid event and none for a zero key; every click handed over is a keyless conversion of an input event; every stored click was handed over |
| ClickWorkers.StoredCount | internal/workers/click_workers.go:34-57 | the stored clicks hold, for a non-zero key, as many clicks as there are events with that key |
| ClickWorkers.NeverFailingStoreCounts | internal/workers/click_workers.go:34-57 | with a store that never fails, the click count of a non-zero key grows by the number of its events |
| ClickServices.ClickService.constructor | internal/services/click_service.go:18-22 | the service holds the repository it was given |
| ClickServices.RecordGuard | internal/services/click_service.go:28-40 | the guards, in order: an uninitialised service, then a missing click, then a zero key; all pass iff the service is ready and the click has a non-zero key |
| ClickServices.RecordClick | internal/services/click_service.go:26-47 | a rejected click returns the guard's error, and for a ready service the store is unchanged, so `CreateClick` is not called. Otherwise there is exactly one `CreateClick` call: success stores the click, and a failure returns the store error wrapped with the key. |
| ClickServices.GetClicksCountByLinkID | internal/services/click_service.go:51-68 | uninitialised and zero-key errors come before any query. Success iff the count query works, and then the count is the number of clicks with the key; a query error is wrapped with the key. |
| ClickServices.RecordedClickIsCounted | internal/services/click_service.go:43-46 | a stored click adds one to its own key's count and nothing to any other key's count |

## Left out

- `GetLinkByID` is declared in the `LinkRepository` interface (`link_repository.go`, line 51), but the repository does not implement it and the core never calls it. `GetAllLinks` is not in the interface.
- URL validation is not modelled: the core code does none.
- Key assignment:
  - Link keys are modelled as `|links| + 1`; deletions and gaps in auto-increment are not modelled.
  - Click keys are not assigned. `CreateClick` stores the click with the key it was given, because no core code reads it back.
- The goroutine pool and the shared channel are left out. One worker is modelled draining a finite sequence, standing for the events it dequeues until the channel closes. Interleavings of several workers, blocking on the channel, and the channel's capacity are concurrency outside the model.
- Concurrent `CreateLink` calls are left out. The lookup at `link_service.go` line 60 and the insert at line 83 leave a window in which another call can store the same code. So `CreateLinkIntended` keeps codes unique only for calls made one at a time.
- `time.Sleep` is returned as a list of durations and does not wait.
- Timestamps (`time.Time`) are opaque integers. `time.Now().Unix()` is the parameter `now`.
- `crypto/rand` is an oracle of draws. The model does not state uniformity or independence.
- Log output is a ghost trace of structured entries, not formatted text. The collision line that `CreateLink` logs at line 69 is not modelled.
- Error text is not modelled:
  - The messages of `fmt.Errorf` and `errors.New` become constructors of `Error`, and `%w` wrapping becomes a nested cause.
  - The click repository's own wrapping of store errors is folded into `StoreFailure`: the insert error at `click_repository.go` line 34 and the count error at line 45.
- Database errors are fixed in advance:
  - a lookup error and a count error either hold for every call or for none;
  - insert outcomes come from a queue.
  - An error that appears on only some of the calls to the same read is not modelled.
- `GenerateShortCode` takes a `nat` length. The Go function panics on a negative length, and CreateLink always passes 6.
- A `LinkService` whose repository is nil would panic in Go; the model's `LinkService` always holds one.
- `GetClicksCountByLinkID` returns a `Result`; the `0` that Go pairs with an error is not modelled.
- The `int` and `int64` counts are unbounded naturals. No count in the model can overflow.
- The `size:255` and `size:50` column limits on clicks are not enforced.
- These files are not part of this model: the HTTP server, the configuration loading, the CLI commands, the database opening (`database.go`), `main.go`, and `internal/models/link.go`. The `Link` fields are those that `link_service.go` uses at lines 77-81.

## Findings

| source | as written | input that shows it | evidently intended | confidence | as-written member | corrected member |
|---|---|---|---|---|---|---|
| internal/services/link_service.go:62-74 | a not-found lookup breaks out of the loop with `err` still holding `ErrRecordNotFound`, so the post-loop check reports "failed to generate a unique short code". A link is inserted only after five collisions, using the fifth candidate, which is already taken. | an empty store, a working lookup, and six successful draws: the first candidate is not found, and `CreateLink` returns the exhaustion error | a not-found lookup ends the search successfully and the candidate is inserted; exhaustion only after five collisions | high; not executed | LinkServices.ExhaustionMeansFreeCode, LinkServices.InsertOnlyAfterFiveCollisions | LinkServicesCorrected.IntendedExhaustion, LinkServicesCorrected.IntendedCodeIsFree, LinkServicesCorrected.OutcomesSwapped |
| internal/services/link_service.go:60,79 | uniqueness is checked for the bare candidate, but the link stores `"/"` plus the candidate, so the lookup never sees codes that `CreateLink` stored | any store whose codes all start with `/`, the empty store included: the first lookup always misses | look up and store the same string: the bare code (`cmd/cli/create.go` adds the `/` itself when printing the short URL) | medium; not executed | LinkServices.SlashedStoreNeverGetsALink | LinkServicesCorrected.CreateLinkIntended |
