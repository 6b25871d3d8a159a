# ptchan gateway: a verified model

A gateway between an imageboard and integrations. It receives posts over a socket, strips what identifies posters,
stores each event with one delivery row per webhook in SQLite, delivers them with retries, and serves a signed API for
reading threads and posting replies. This project models that behaviour in Dafny and proves what its documentation
promises, or where a promise fails says exactly when it holds. `dafny verify dfyconfig.toml` checks all of it.

- **Outbox.** `Schema` holds the two tables and the statements on them, `Store` the SQLite store whose timestamps are
  text (`Text`, `Calendar`, `Rfc3339`), `Webhook` a delivery pass and a retention pass run step by step. `Outbox` is the
  whole machine: ingest, the delivery loop with sixteen concurrent sends started in the order of the batch, retention,
  the wake-up permit, failing writes, crashes and restarts. Each database call and each answer is one action, together
  with the clock reading that belongs to it; actions interleave in any way.
  `OutboxInvariant` proves its invariant; `Delivery`, `Wakeup`, `Fairness`, `Confluence` and `Slots` prove what follows
  for runs.
- **Privacy.** `Json`, `Upstream`, `Event`, `PublicPost` and `Ingest`: redaction, the contract event, what it says of each
  key of the payload, and noninterference.
- **Quotas and the API.** `Config`, `RateLimit`, `Requests`.
- **The upstream connection.** `Protocol`, `Liveness`, `Supervisor`, `Session`.
- **Two implementations.** `Signing` and `Sdk` relate the Go SDK to the Rust gateway: signed messages, and what the SDK
  makes of the events and threads the gateway writes. `Reading` covers thread reads.

## Findings

Properties that one would expect and that the code does not have; each has a concrete input and the exact condition.

- A row committed while the delivery loop sleeps is unknown to it until `notify_one` runs, and the socket refresh can drop
  the ingest task between the two: `Wakeup.UnannouncedRowIsNotSeen`. `Wakeup.NoLostWakeup` says exactly when every
  pending row is known; `Wakeup.SleepIsBounded` bounds the damage.
- When an event is marked delivered, cleaned up and stored again within one delivery pass, the tables end otherwise than
  with all marks after the pass's ingest and retention: `Confluence.RestoredEventDiffers`, a run.
  `Confluence.PassIsSequential` says that nothing else makes that order matter.
- One slow endpoint can hold up the others, against what docs/operations.md:34-35 says. It takes all sixteen slots in the
  run `Slots.SlowEndpointTakesEverySlot`, and can in a batch exactly when sixteen of its rows stand before the other's
  (`Slots.HeldUpExactly`); a due row can be left out of a batch exactly when fifty others come before it or tie with it
  (`Slots.InEveryBatchExactly`). How long a row then waits is bounded by `Slots.QueuedStarts` within a pass and
  `Fairness.DueRowIsSoonLoaded` across passes.
- An attempt that joined and then ended with a socket error does not start the reconnect waits over:
  `Supervisor.JoinedThenErrorDoesNotReset`, exactly `Supervisor.ResetsExactly`.
- Flooring the replenish period lets almost twice the configured count through one window:
  `RateLimit.ConfiguredCountCanBeExceeded`, exactly `RateLimit.CountHoldsExactly`.
- Stored timestamps stop sorting by time in year 10000: `Rfc3339.LaterYearsSortFirst`, exactly `Rfc3339.TextOrderIsTime`.
- The SDK asks more than the gateway gives: it refuses an event that quotes a post without a positive id
  (`Sdk.ZeroQuoteIsRefused`, exactly `Sdk.AcceptsExactly`), and a thread whose dates contradict its ids, by which the
  gateway sorts (`Sdk.EarlyReplyIsRefused`, exactly `Sdk.ThreadsAcceptedExactly`).
- Where the documentation allows five minutes of clock skew, the code allows anything under 301 seconds:
  `Requests.SkewExactly`. The backoff cap of 300 seconds is out of reach, the longest wait being 256: `Schema.BackoffDoubles`.

## Model

| member | source | states |
|---|---|---|
| `Delivery.AtLeastOnce` | src/webhook.rs:71-147 | in every run with failing writes, pruning, crashes and restarts, a delivery row once committed is at every later point answered with 2xx or still pending, with its event and payload |
| `Delivery.AnswersComeFromEndpoints` | src/webhook.rs:109-147 | a row counts as answered only because of a 2xx answer at its webhook, after a request sent for this very row with its own payload |
| `Delivery.RetriesAreIdentical` | src/store.rs:146-177 | every request for a row, first or repeated, carries the same event id and the same bytes |
| `Delivery.FlightsStayCurrent` | src/webhook.rs:88-106 | under any interleaving each unfinished delivery of a batch still matches a pending row with its attempts and payload, at most 50 of them and 16 at work; attempts equal the failures written |
| `Delivery.RunPersists` | src/store.rs:179-226 | along every run a row's record keeps its key and payload, never loses an answer and never loses a failure |
| `Delivery.AnyDatabaseStarts` | src/store.rs:52-90 | every database with sound foreign keys is the start of a run |
| `OutboxInvariant.StepKeeps` | src/webhook.rs:48-147 | the invariant tying rows, history and flights is kept by every action of ingest, delivery, retention and crash |
| `Confluence.PassIsSequential` | src/webhook.rs:88-106 | one batch's concurrent deliveries under any interleaving, against ingest and retention as they came and then the same outcomes in any order: seen from any cleanup no earlier than those of the pass, and with every stored event having deliveries, the tables agree exactly when no event with a mark of the pass is stored during it; without a cleanup in the pass they are the same at once |
| `Confluence.OpsAreSequential` | src/store.rs:92-226 | the same on the level of database operations |
| `Confluence.RestoredEventDiffers` | src/store.rs:106-142 | a run of the machine that marks the last row of an old event delivered, cleans it up and stores it again, and so parts from the sequential pass |
| `Confluence.PassWrites` | src/webhook.rs:100-104 | within a pass every row of the batch is written at most once and no other row is |
| `Webhook.ConcurrentPassIsDeliverBatch` | src/webhook.rs:71-147 | every pass of the machine over a batch has turns with which the one-by-one `DeliverBatch`, after the pass's ingest and retention, leaves the same tables |
| `Webhook.DeliverBatch` | src/webhook.rs:100-104 | one delivery after the other applies the marks of their outcomes |
| `Fairness.NoStarvation` | src/webhook.rs:71-107 | with n rows at or ahead of a pending row, and c more put ahead by failed writes, crashes, late older events or failures while it is not due, the row is loaded by one of any floor((n + c) / 50) + 1 passes that find it due, whatever the clock does |
| `Fairness.DueRowIsSoonLoaded` | src/webhook.rs:71-107 | a due row with n rows at or ahead of it is loaded by one of the first floor(n / 50) + 1 passes, as long as clock readings never go back, writes succeed, nothing crashes and only events observed after it fell due are stored |
| `Fairness.CalmChargesNothing` | src/webhook.rs:71-107 | in such a run that passes a due row over, nothing is put ahead of it and every pass finds it due |
| `Fairness.StepAccounted` | src/store.rs:153-161 | every action changes the number of rows ahead of a waiting row by no more than its charge, and a pass that finds it due and skips it lowers it by 50 |
| `Fairness.DueRowsAreNotOvertaken` | src/webhook.rs:235-240 | a failed delivery is never retried before a row that is due now, so a failure can be put ahead of a row only while that row is not due |
| `Slots.QueuedStarts` | src/webhook.rs:100-104 | the delivery at place n of a loaded batch, counted from zero, is reached by starts alone after at most n - 15 landings |
| `Slots.HeldUpExactly` | src/webhook.rs:100-104 | from any loaded batch there is a run of the pass in which one endpoint has every slot while another's delivery waits if and only if at least sixteen of its rows stand before that delivery in the batch |
| `Slots.SlowEndpointTakesEverySlot` | src/webhook.rs:100-104 | over any tables with at most 50 due rows, 16 of one endpoint ordered before another's row, a run from a start in which that endpoint has every slot and the other's row waits |
| `Slots.InEveryBatchExactly` | src/store.rs:153-161 | every answer of the query holds a due row if and only if fewer than fifty other due rows come before it or tie with it |
| `Slots.BatchExists` | src/store.rs:153-161 | the batch query has an answer over all tables |
| `Wakeup.NoLostWakeup` | src/webhook.rs:49-68 | asleep without a permit after a successful query, every pending row was visible to it exactly when no row has since been committed without its notification, and the sleep ends no later than the first row falls due |
| `Wakeup.SleepsExactly` | src/webhook.rs:53-67 | the sleep ends at the first instant a pending row falls due, at once when overdue, and after 60 seconds without one or after a failed query |
| `Wakeup.UnannouncedRowIsNotSeen` | src/socket/ingest.rs:75-96 | a run in which a committed row is not known to the sleeping loop |
| `Wakeup.SleepIsBounded` | src/webhook.rs:53-67 | on a forward clock, and with no stored row due more than 256 seconds ahead at the start, no sleep exceeds 256 seconds, so the timer wakes the loop even without a notification |
| `Schema.CreateEventCommits` | src/store.rs:92-144 | with distinct webhook names and sound foreign keys the transaction never fails on a key: a known event changes nothing, a new one comes with exactly its rows, due at once |
| `Schema.InsertRowsExactly` | src/store.rs:66-77 | the inserts succeed exactly when no (event id, webhook) key repeats, in the table or among them, and then add exactly those rows |
| `Schema.CreateEventIsFirstWriteWins` | src/store.rs:108-141 | whatever commits leaves every stored event and row as it was |
| `Schema.PruneRemovesOnlyDelivered` | src/store.rs:311-326 | cleanup removes whole events with their rows, all delivered and old, and nothing pending |
| `Schema.BackoffDoubles` | src/store.rs:360-363 | 2 seconds after the first attempt, doubled from each attempt to the next, and 256 from the eighth on |
| `Schema.BackoffBounds` | src/store.rs:360-363 | backoff lies between 2 and 256 seconds, never shrinks, and is 256 exactly from the eighth attempt on |
| `Schema.BeforeIsStrictOrder` | src/store.rs:160-161 | the selection order is strict, and ties are an equivalence |
| `Rfc3339.TextOrderIsTime` | src/store.rs:158-164 | stored text compares with the text of another instant as the instants do, with 0, 3, 6 or 9 fraction digits, exactly while that instant lies before year 10000 |
| `Rfc3339.LaterYearsSortFirst` | src/store.rs:315-321 | from year 10000 on every instant sorts before every stored one |
| `Rfc3339.ParseRender` | src/store.rs:290-308 | reading a stored text gives back its instant to the nanosecond |
| `Calendar.CivilOrder` | src/store.rs:104 | calendar fields compare as the instants they were made from |
| `Calendar.CivilOfInstant` | src/store.rs:104 | calendar fields survive the way to an instant and back |
| `Rfc3339.StampIs` | src/store.rs:104-104 | the printed form of a timestamp |
| `Text.LessExactly` | src/store.rs:160-161 | the order of texts: that of the first differing character, a proper prefix coming first |
| `Store.Store.CreateEvent` | src/store.rs:92-144 | on text timestamps, does what the table model does on instants, or rolls back |
| `Store.Store.PendingDeliveries` | src/store.rs:146-177 | comparing text selects the first due rows by instant and event id, up to the limit, each with its attempts and its own payload, or the event's where it has none |
| `Store.Store.MarkDelivered` | src/store.rs:179-196 | sets that row delivered and changes nothing else |
| `Store.Store.MarkFailed` | src/store.rs:198-226 | sets attempts, next attempt and the error cut to 500 characters, and nothing else |
| `Store.Store.NextDeliveryDelay` | src/store.rs:286-309 | the time to the earliest pending row, zero once overdue, none without pending rows |
| `Store.Store.PruneDeliveredEvents` | src/store.rs:311-326 | removes exactly the events older than the cutoff instant with all rows delivered, cascading, and counts them |
| `Webhook.DeliverPending` | src/webhook.rs:71-107 | afterwards every row of the batch is delivered, or has one more attempt, its error cut to 500 characters, and is pushed back by exactly 2, 4, 8, 16, 32, 64, 128 or 256 seconds for that count of attempts, unless its write failed; every other row is untouched |
| `Webhook.DeliverOne` | src/webhook.rs:109-147 | writes exactly the mark its outcome calls for; an unconfigured webhook is a failure |
| `Webhook.MarkFailed` | src/webhook.rs:235-247 | one more attempt, scheduled by the backoff of that count |
| `Webhook.PruneOnce` | src/retention.rs:28-42 | prunes by the retention, never a pending row; a retention too large, a failing delete, and the panic of a cutoff chrono cannot hold change nothing |
| `Upstream.RedactionExactly` | src/upstream.rs:88-126 | a payload is accepted exactly when every raw, cloak, session or permissions key lies below an ip key, and what is passed on has none of the five keys |
| `Upstream.DropIpAt` | src/upstream.rs:88-105 | below an ip key nothing is left; at every other path the node is left, itself cleaned |
| `Upstream.KeptKeys` | src/upstream.rs:88-105 | exactly the keys outside ip, other than ip, survive |
| `Upstream.SafeExactly` | src/upstream.rs:107-126 | the recursive check passes exactly when no path leads to a sensitive key |
| `Upstream.DropIpForgetsExactlyIp` | src/upstream.rs:88-105 | two trees are cleaned to the same tree exactly when they agree at every path not through ip |
| `Upstream.DropIpFields` | src/upstream.rs:88-105 | the in-place removal, key by key and child by child, gives the cleaned tree |
| `Upstream.RejectSensitiveFields` | src/upstream.rs:107-126 | accepts exactly the safe trees and names a sensitive key that is there otherwise |
| `Upstream.TryFrom` | src/upstream.rs:55-64 | succeeds exactly when no sensitive key stands outside ip fields and the cleaned payload is a post; the identity is the core of the text at /ip/cloak of the payload as it came |
| `Upstream.ArrayOfFields` | src/upstream.rs:7-36 | the order in which a post given as an array holds its fields |
| `Upstream.PosterIdentityExactly` | src/upstream.rs:79-86 | there is an identity exactly when /ip/cloak is text and not blank, and it is that text without its blank ends |
| `Upstream.DecodeIgnoresIp` | src/upstream.rs:55-86 | whether and to what a payload decodes does not depend on its ip fields |
| `Json.TrimIs` | src/upstream.rs:79-86 | trimming removes a blank head and tail and leaves neither |
| `Json.WhiteSpaceIs` | src/event.rs:162-162 | which 25 characters are trimmed |
| `Json.TrimExactly` | src/upstream.rs:79-86 | the trimmed text is the one core between blank ends, and empty exactly for blank texts |
| `Json.AsI64Exactly` | src/event.rs:125-126 | a JSON number is an id exactly when it is whole and of 64 bits |
| `Event.EncodingNeverFails` | src/event.rs:91-95 | the check on encoded events refuses none whose numbers are i64, whatever its texts say |
| `Event.EncodedBytesAreChecked` | src/event.rs:91-95 | encoded bytes are passed on exactly when they read as a tree without a sensitive key, whatever the JSON library does |
| `Event.BuiltEventsFit` | src/event.rs:14-45 | every event built from upstream has such numbers, an id and a URL |
| `Event.EventIdIsInjective` | src/event.rs:23-29 | an event id determines kind, board and post id for any board text and any id |
| `Event.CleanExactly` | src/event.rs:160-169 | cleaning a text field gives its core between blank ends, and nothing exactly for absent and blank texts |
| `PublicPost.PostSays` | src/event.rs:53-83 | each field of the contract post from the keys of the payload: the message is the readable text where there is any and else the rendered one, the thread falls back to the post, the URL is base, board, thread and post, references and backlinks keep their order |
| `PublicPost.PostsExactly` | src/upstream.rs:7-40 | an object is a post exactly when date, board and id are there and every other key it may have holds what it may |
| `PublicPost.RefExactly` | src/event.rs:123-158 | which post a quote refers to: a number, decimal text, or an object that may name another board and thread |
| `PublicPost.CountryExactly` | src/event.rs:178-180 | the country is the core of the code of a country object |
| `PublicPost.ParseI64Exactly` | src/event.rs:130-134 | text is a number exactly when it is digits with at most one sign and fits an i64 |
| `PublicPost.EventTells` | src/event.rs:14-45 | an object becomes an event exactly when it is accepted; kind, id text, time, post and identity are what its keys say |
| `PublicPost.EventIdSpells` | src/event.rs:23-29 | the id is ptchan, the kind, the board and the post id, with colons between |
| `Text.DecimalExactly` | src/event.rs:58-64 | a number prints as the one text of its digits without a leading zero, with a minus sign when negative |
| `Event.ParseDecimal` | src/event.rs:130-134 | a reference written as decimal text is read back, for every i64 |
| `Ingest.Noninterference` | src/socket/ingest.rs:14-137 | payloads that differ only inside ip fields give the same event, stored payload and deliveries to webhooks without fingerprints; if the core of the text at /ip/cloak agrees too, everything is the same |
| `Ingest.DeliveriesExactly` | src/socket/ingest.rs:112-137 | deliveries go in order to the webhooks allowed on the board, each with its own encoding, and fail exactly when a fingerprint is wanted without a secret |
| `Ingest.PreparedDeliveries` | src/socket/ingest.rs:112-137 | deliveries go to exactly the webhooks allowed on the board, at least one, under distinct names when the configured ones are |
| `Ingest.PreparedPayload` | src/socket/ingest.rs:117-134 | every delivery's bytes read back as the event, with the fingerprint made of that webhook's name and the payload's identity exactly where the webhook asks for one |
| `Ingest.PreparedExactly` | src/socket/ingest.rs:14-110 | a payload gives an event exactly when its first item is an accepted object and some webhook may see its board, none of those lacking a secret; the stored event, its columns and its payload are what the keys say, attributed by tripcode |
| `Ingest.DeduplicationIsExact` | src/event.rs:29-29 | two payloads are the same event exactly when kind, board and post id agree |
| `Ingest.FingerprintMessageIsInjective` | src/event.rs:97-114 | the message behind a fingerprint determines webhook and identity |
| `Ingest.NewPost` | src/socket/ingest.rs:14-110 | stores what the payload gives in one transaction and notifies exactly when the event was new; refused payloads change nothing. What a payload gives is `Ingest.PreparedExactly` |
| `Config.Validate` | src/config/validation.rs:13-85 | accepts exactly the valid files: well-formed parts, and no two integrations with the same name, environment name or tripcode |
| `Config.ValidateBucket` | src/config/validation.rs:107-133 | accepts exactly buckets with 0 < burst <= requests <= window in nanoseconds |
| `Config.Resolve` | src/config/file.rs:75-168 | succeeds exactly for valid files whose secrets are all set and whose form names fit, and carries names, boards and the fingerprint secret over |
| `Config.ShareExactly` | src/config/file.rs:75-168 | what an integration gets, with the three environment variables it is read from by their full names, and exactly when it gets it |
| `Config.WebhooksComeFromFile` | src/config/file.rs:85-100 | the webhooks are exactly those of the file, under distinct names |
| `Config.PostingsComeFromFile` | src/config/file.rs:101-135 | the postings are exactly those of the file |
| `Config.NamesAre` | src/config.rs:214-261 | which names and tripcodes are valid, by the codes of their characters, and what becomes of each in an environment name |
| `Config.IngestAlwaysCommits` | src/socket/ingest.rs:75-137 | with a resolved configuration and any reachable tables, every payload's deliveries can be prepared and storing it never violates a key |
| `Config.SecretsAreSeparate` | src/config.rs:202-224 | no two integrations or purposes read the same environment variable |
| `RateLimit.RateBound` | src/rate_limit.rs:105-115 | whatever came before, requests within any span are admitted at most burst plus floor(span / period) times |
| `RateLimit.RateBoundIsReached` | src/rate_limit.rs:105-115 | a fresh limiter admits exactly that many |
| `RateLimit.PeriodsInWindow` | src/rate_limit.rs:110-110 | a window holds requests + floor((window mod requests) / period) periods, fewer than twice the requests |
| `RateLimit.WindowBound` | src/config/validation.rs:107-133 | a validated bucket admits fewer than burst + 2 requests in one window, and at most burst + requests when window mod requests is below the period |
| `RateLimit.WindowBoundIsReached` | src/rate_limit.rs:105-115 | the bound for one window is met |
| `RateLimit.CountHoldsExactly` | src/rate_limit.rs:105-115 | no window admits more than burst + requests exactly when window mod requests is below the period |
| `RateLimit.ConfiguredCountCanBeExceeded` | src/rate_limit.rs:105-115 | a valid bucket of 1000 requests and burst 1 that admits 2000 in one window |
| `RateLimit.ValidBucketsGiveLimiters` | src/rate_limit.rs:105-115 | every validated bucket gives a limiter |
| `Requests.QuotaIsolation` | src/rate_limit.rs:67-79 | over any request sequence and span, an integration spends at most burst plus floor(span / period) of its own quota from the shared one |
| `Requests.OwnLimiterDecides` | src/rate_limit.rs:67-79 | an integration's limiter depends on its own requests alone, and it spends no more shared quota than that limiter admits |
| `Requests.CostIsWhoAndWhen` | src/runtime/threads.rs:80-154 | over whole runs, requests that differ only in thread and query, and in what their bodies read as, leave the same limiters, are let through alike and spend the same shared quota |
| `Requests.CostSeesNoContent` | src/runtime/replies.rs:220-282 | thread, query and the JSON inside a body leave the cost of a request unchanged |
| `Requests.RateLimiters.Check` | src/rate_limit.rs:67-79 | own tier first, the shared tier only after it admits |
| `Requests.NewCellsExactly` | src/rate_limit.rs:35-57 | integrations with distinct names each have a fresh limiter per capability with the configured quota, and nobody else has one |
| `Requests.RateLimiters.constructor` | src/rate_limit.rs:35-57 | those limiters, and the two shared ones |
| `Requests.PrepareRead` | src/runtime/threads.rs:73-162 | unauthorized exactly without a fresh timestamp and an accepted signature under the named integration's secret; the limiter is asked exactly for requests that have both, the capability and the board; which error comes when, and the default limit of 50 |
| `Requests.PrepareReply` | src/runtime/replies.rs:189-289 | likewise for posting, where an unreadable body comes before authentication and its JSON after the quota |
| `Requests.ValidateReply` | src/posting.rs:206-231 | accepts exactly valid boards, positive ids and messages that are not blank, at most 8000 bytes and printable |
| `Requests.AuthenticatedExactly` | src/runtime/auth.rs:147-194 | a request is authenticated exactly when it names a served integration, its timestamp is less than 301 seconds off, and the gateway's check accepts its signature under that integration's secret |
| `Requests.SdkIsAuthenticated` | src/runtime/auth.rs:59-108 | every request the SDK builds under an integration's secret is authenticated on its route while its timestamp is less than 301 seconds off |
| `Requests.ThreadIdExactly` | src/runtime/threads.rs:84-84 | which thread a path names |
| `Requests.Utf8LengthAdds` | src/posting.rs:220-222 | the length counted against the limit is that of UTF-8 |
| `Requests.SkewExactly` | src/runtime/auth.rs:156-162 | a timestamp is accepted exactly when it is less than 301 seconds off |
| `Signing.SigningAgreement` | src/runtime/auth.rs:167-194 | the gateway accepts every request the SDK signs, and one with another request's signature exactly when the digests of the two messages agree |
| `Signing.MessageDetermines` | clients/go/signing.go:10-22 | messages of two SDK requests are equal exactly when timestamp, method, target and body are, for every board text |
| `Signing.RequestLine` | clients/go/client.go:109-142 | method and target of the SDK's requests, spelled out |
| `Signing.ServerMessage` | src/runtime/auth.rs:183-191 | what the gateway feeds its hasher is the SDK's message |
| `Signing.SegmentRoundTrip` | clients/go/types.go:47-49 | the gateway decodes the board the SDK escaped, for any bytes, and no escape holds a slash |
| `Signing.EscapedByte` | clients/go/types.go:47-49 | which bytes of a board stay as they are in a path, and that each other one is a percent sign and two digits |
| `Signing.HexIsLower` | src/webhook.rs:224-233 | a digest is written as two lower-case digits for each byte |
| `Signing.HexRoundTrip` | src/runtime/auth.rs:178-178 | decoding undoes hexadecimal encoding |
| `Signing.WebhookAgreement` | clients/go/signing.go:24-44 | the SDK accepts a webhook header exactly when it decodes to the digest of timestamp and payload, in particular the gateway's |
| `Signing.WebhookMessageDetermines` | src/webhook.rs:224-233 | a webhook message determines its timestamp and payload, dots in timestamps notwithstanding |
| `Signing.DirectionsAreSeparate` | src/webhook.rs:224-233 | no webhook message is the message of an API request, though one secret signs both |
| `Sdk.EventReads` | clients/go/types.go:67-82 | the SDK decodes every event the gateway encodes to the same event, field by field, exactly when its dates have four-digit years |
| `Sdk.PostReads` | clients/go/types.go:121-148 | likewise for posts, absent texts being empty |
| `Sdk.AcceptsExactly` | clients/go/webhook.go:106-121 | the SDK accepts a delivered payload exactly when its post and every post it refers to have a board and positive ids, its origin a name, and no date is the zero time or beyond four-digit years |
| `Sdk.RefTakenExactly` | clients/go/types.go:155-160 | a reference is taken exactly when it is an object with a board and two positive ids |
| `Sdk.IncompleteIsRefused` | clients/go/types.go:164-177 | nothing is decoded that misses a required field or has null there |
| `Sdk.ZeroQuoteIsRefused` | src/event.rs:123-128 | the gateway builds an event from a post that quotes post 0, and the SDK refuses it |
| `Sdk.ValidatePost` | clients/go/client.go:258-280 | the loop over references accepts exactly the valid posts |
| `Sdk.ValidateThread` | clients/go/client.go:224-240 | the loop accepts exactly matching coordinates, valid posts and dates in order |
| `Sdk.ThreadsAcceptedExactly` | clients/go/client.go:224-240 | a thread the gateway reads from any payload is accepted exactly when its posts are ordinary, belong to it, and later ids carry no earlier dates |
| `Sdk.EarlyReplyIsRefused` | src/reading.rs:74-122 | a thread payload whose reply is dated before its opening post is read, its posts ordinary, and every answer with it refused by the SDK |
| `Protocol.CodesDecode` | src/socket/protocol.rs:21-37 | which texts are pings, closings, connects, disconnects, errors and unknown packets, by their first characters |
| `Protocol.EventsDecode` | src/socket/protocol.rs:84-99 | exactly which texts decode to which event |
| `Protocol.OpensDecode` | src/socket/protocol.rs:39-62 | exactly which texts open the transport, and with which heartbeat |
| `Liveness.RunSocketOnce` | src/socket/mod.rs:111-198 | the loop over frames; the joined flag is up only after a joined message on this connection and is taken down by a timeout; it ends in order or with an error only at a frame that can end it, which no answered ping is |
| `Liveness.FrameDecides` | src/socket/mod.rs:111-374 | what the next frame does to an open connection, told by the texts of the frames: when it ends and how, and otherwise its new deadline, heartbeat and joined flag; a ping whose answer goes out ends nothing |
| `Liveness.OnlyTheseEnd` | src/socket/mod.rs:143-193 | which frames can end a connection before its deadline |
| `Liveness.JoinsExactly` | src/socket/mod.rs:402-404 | which texts are joined messages |
| `Liveness.HandlePacket` | src/socket/mod.rs:292-374 | which packets answer, close or join |
| `Liveness.ReceiveLiveness.Remaining` | src/socket/mod.rs:253-269 | the wait ends at the last sign of life plus the allowed silence, at once when that has passed |
| `Liveness.TimeoutMeansSilence` | src/socket/mod.rs:121-135 | the deadline ends a connection only after a full allowed silence since every sign of life received, with nothing in hand before it |
| `Liveness.SteadyServerIsNeverTimedOut` | src/socket/mod.rs:253-261 | frames that arrive within twice the ping interval plus the ping timeout plus 5 s (30 s before the transport opens) of the last sign of life never meet the deadline |
| `Liveness.LivelyIsNeverTimedOut` | src/socket/mod.rs:263-269 | the same in terms of when frames are received and handled |
| `Liveness.SilentConnectionEnds` | src/socket/mod.rs:121-135 | a connection that receives nothing more waits exactly until its deadline, or the end of the handling in progress then, and is timed out there |
| `Liveness.NoiseDoesNotExtend` | src/socket/mod.rs:143-193 | rejected texts, binary frames and pongs never put the deadline off |
| `Supervisor.Supervise` | src/socket/mod.rs:59-109 | in every run the flag is up only inside a connection that received a joined message, never in a backoff, auth wait or exit, and the sleeps are the waits below |
| `Supervisor.StreakAfterReset` | src/socket/mod.rs:90-107 | the exponent of a wait counts the attempts since the last one that reset it |
| `Supervisor.StreakFromStart` | src/socket/mod.rs:60-107 | before any reset it counts the attempts after the first |
| `Supervisor.WaitBounds` | src/socket/mod.rs:107-107 | the waits are 3, 6, 12, 24 and 48 seconds, and 60 from five repeats on |
| `Supervisor.ResetsExactly` | src/socket/mod.rs:90-107 | an attempt that joined starts the waits over exactly when it did not end with a socket error; one that did not, only by being refreshed |
| `Supervisor.JoinedThenErrorDoesNotReset` | src/socket/mod.rs:140-140 | a connection that joined and then failed to read leaves the waits growing |
| `Session.RefreshIsInTime` | src/session.rs:219-229 | a refresh falls exactly an hour before expiry where five hours or more are left, and else a fifth of what is left before it |
| `Session.RefreshLoop` | src/session.rs:106-138 | the sleep and the health flag after every refresh |
| `Session.NothingLeftAfterNineteen` | src/session.rs:219-229 | along successful refreshes without a new cookie the remaining time strictly decreases while positive and is zero after nineteen |
| `Session.EighteenAreNotEnough` | src/session.rs:219-229 | from five hours on exactly nineteen are needed |
| `Reading.ThreadFromValue` | src/reading.rs:74-122 | fails exactly when a post does not decode, otherwise the last posts of the stable sort of root and object replies, up to the limit |
| `Reading.ThreadExactly` | src/reading.rs:74-105 | a thread is read exactly when its root and its object replies, filled with board and thread where they name none, are accepted; the posts are the root's and then one per such reply, each saying what its keys say |
| `Reading.SortById` | src/reading.rs:107-107 | a stable sort by id |
| `Reading.StableSortIsUnique` | src/reading.rs:107-107 | sortedness and the order within each id leave one result |
| `Reading.ThreadReads` | src/reading.rs:43-43 | between 1 and 200 posts in id order, none left out newer than one kept, truncated exactly when some were left out |
| `Reading.ReadingIgnoresIp` | src/reading.rs:74-105 | threads that differ only inside ip fields read the same |

## Left out

- Webhook.DeliverBatch: one delivery after the other, with clocks in range; the concurrent form is the machine in `Outbox`.
- Webhook.DeliverOne: clock readings of the years 0 to 9999, in which the stored text orders them.
- Webhook.MarkFailed: likewise.
- Webhook.PruneOnce: clocks before year 10000, likewise.
- HTTP, websocket and SQLite drivers, task spawning and signals: each call is a step with any result.
- Config.ShareExactly: the URL of a webhook, and the integration's secret that signs its deliveries, are not carried over; `Signing` takes the secret as a parameter.
- HMAC-SHA-256, dates, JSON, TOML and URL text: functions passed in. Encoded JSON of events with i64 numbers is assumed to be read back as written, and Go to read exactly the written dates with four-digit years; the printed form of stored dates (`to_rfc3339`) is modelled.
- The `governor` crate: the generic cell rate algorithm stands for it. The two tiers are checked in one step, where concurrent requests could interleave them.
- The HTTP layer between SDK and gateway: the target is assumed to arrive as it was sent.
- Go's case-insensitive matching of JSON keys: the SDK's reader looks for the exact names the gateway writes.
- Store.Store.CreateEvent: observation times of the years 0 to 9999, in which the stored text orders them; leap seconds are not modelled.
- Store.Store.PendingDeliveries: clocks before year 10000, likewise.
- Store.Store.MarkDelivered: clock readings of the years 0 to 9999, likewise.
- Store.Store.MarkFailed: retry times of the years 0 to 9999, likewise.
- Store.Store.PruneDeliveredEvents: cutoffs before year 10000, likewise.
- Ingest.NewPost: clock readings of the years 0 to 9999, likewise.
- Webhook.DeliverPending: clocks that leave room for the longest backoff before year 10000, and one delivery after the other; the concurrent form is the machine in `Outbox`, which `Webhook.ConcurrentPassIsDeliverBatch` relates to it. The ten-second delivery timeout is one way for a request to be refused, so waits are counted in landings and passes, not in seconds.
- Wakeup.SleepIsBounded: rows left by a clock that was ahead before the start may lie further off, and the loop then sleeps until the first of them.
- Liveness.SteadyServerIsNeverTimedOut: handling a sign of life takes less than the allowed silence, and frames that are none take no handling time; `Liveness.LivelyIsNeverTimedOut` has neither assumption.
- Liveness.NoiseDoesNotExtend: frames nothing is done about take no handling time.
- Supervisor.Supervise: the endless loop runs over finite sequences, of any length, of what the world does; a sleep cut short by shutdown ends the run.
- Session.RefreshLoop: likewise.
- Pending counts, oldest pending age, metrics, logs, telemetry labels: observers.
- Generated schemas and OpenAPI, error tables, upstream error classification, the reply form, Go client options and the check of reply responses: one reading settles them.
- Backfill of events missed while disconnected: the gateway has none.
