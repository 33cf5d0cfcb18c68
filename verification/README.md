# nodemux in Dafny

nodemux is a gateway in front of many blockchain nodes. This project models how it keeps its routing
state, how node statuses reach that state, how it limits callers and how it picks one answer out of many,
and proves what each of these keeps over every run.

How it is laid out:

- `Types`, `ChainRefs`, `Fleets`: the plain values; a *fleet* is the facts behind the routing state (per
  endpoint: chain, configuration, last health, last head), `Usable` the endpoints a request may go to.
- `Replays`: statuses as updates of a fleet. What any run leaves behind, which runs cannot be told apart, when
  somebody who heard other statuses ends in the same state, and how catching up from the newest entries compares
  with a full replay.
- `WeightTables`, `Derived`: what is stored beside the facts (cumulative weight table, tip, names per chain),
  defined as a recomputation, with one lemma per kind of incremental step.
- `Endpoints`, `EndpointSets`, `Multiplexers`: the classes whose fields are updated in place.
  `Multiplexer.Sound` says that indexes and weight tables agree with the recomputation and each stored tip is 0 or
  some head of its chain; every operation keeps it and needs no more. `RightTips` are the chains whose stored tip is the tip; each
  operation says what it does to them. `Valid` is both, for every chain.
- `Fetching`, `Channels`, `StreamHubs`, `MemoryHubs`: the poller and the two hubs that carry statuses.
- `Pipelines`: all pollers of a gateway through the in-memory hub and the updater to the routing state, and the way
  from either hub to the routing state of a gateway that joins late.
- `RateLimits`, `RateRaces`: the limiter called in turn, and the limiter under overlapping calls.
- `Broadcasts`, `Web3Choices`: concurrent calls collected under a lock, the choice among their results, and both
  together from the routing state to the answer.
- `JsonrpcCaches`: the answer cache.

Assumptions. One status update, one selection and one read of the stream are each one atomic step. Heights,
weights and counters are mathematical integers. Go's map iteration is an arbitrary choice from what remains;
a random number is an arbitrary function of a seed, a scheduler an arbitrary choice among the possible steps.
What an upstream call comes to is a function of the endpoint. `hexutil.DecodeUint64` is a parameter that may
refuse a text. A cache key tells its prefix and its request. Stream ids are positions. Times are whole seconds on
one clock. A hash, a map with deadlines and an append-only list stand for Redis.

## Findings

- Indexes and weight tables equal their recomputation after every sequence of loads, additions and statuses. A tip
  can go wrong in one way: adding an endpoint that already has a head above its chain's tip, because adding never
  looks at the tip. It stays wrong until a status of the chain makes the set rescan or reports a head nowhere below
  the true tip (`Multiplexer.Add`, `Multiplexer.UpdateStatus`; `AddLeavesTipWrong` is an input). Even then counting
  back from it finds somebody as long as a holder of the stored tip serves the method (`StoredTipIsReachable`).
- Newest-first catch-up restores health always; it loses an endpoint's head exactly when the endpoint's newest
  entry in the window carries none and an older one carries a new one (`CatchUpEqualsReplay`).
- The listener of the stream begins with the newest entry alone. What is appended between a subscription and that
  first read, except for the newest, is delivered to nobody; it shows unless it was known already or is said again
  (`FirstReadMisses`, `SubscriberIsCurrent`).
- Suppressing repeated heads shows nowhere exactly when every suppressed poll finds the endpoint healthy and with
  that head. That holds for an endpoint's only publisher; a second gateway on the same stream that reports a failure
  or another head between two polls of the same block breaks it, one that reports the same block does not
  (`SuppressionShows`, `SecondPublisher`).
- The in-memory hub keeps one snapshot per chain, not per endpoint. A late subscriber is current exactly for the
  endpoints whose last status was the last of its chain and carried its head, that were published again since, or
  whose statuses changed nothing (`LateSubscriber`, `SnapshotsForgetEndpoints`).
- The tip counts endpoints that do not serve, so a stale leader can put every healthy endpoint out of reach
  (`CountingBackFails`, `UnhealthyTipStrands`).
- When a broadcast at height -10 finds nobody, the relay that follows cannot find anybody either
  (`SendRawTransaction`, `GetTransactionCount`).
- HTTP requests and websocket messages of one account count on the same counter, the former against the limit, the
  latter against twice the limit: a call is admitted by how many came before it, whatever their limits were. The
  first caller is let in even at a limit of 0, and one call less than were made is reported as used
  (`SequentialLimit`, `ReportedIsOneShort`).
- When calls overlap, `s` first callers let up to `s * limit` calls in, with the positive limits that the server asks
  for; for `s` below a thousand that is the most, and for `s` = 1 it is the limit. At a full thousand it is limit - 1
  more (`RaceLimit`, `RaceLimitIsReached`).

## Model

| member | source | states |
|---|---|---|
| `Multiplexers.Multiplexer.UpdateStatus` | core/sync.go:57-128 | from any sound state one status leads to a sound one: the facts are those of the status applied, indexes and weight tables are again exact, each tip is 0 or some head of its chain; a chain's tip is right afterwards if and only if it was before, or the status is of that chain and its head falls or is nowhere below the tip; the chain's set is always found and nothing but the endpoint and that set is written |
| `Multiplexers.Multiplexer.MoveHead` | core/sync.go:84-126 | a falling head leaves the true maximum over 0 and all heads, unhealthy endpoints included, whatever was stored; the fast path otherwise leaves it if the stored tip was the true one |
| `Multiplexers.Multiplexer.FlipHealth` | core/sync.go:66-71 | after a health flip the rebuilt table has exactly one row of the right width per healthy endpoint |
| `Multiplexers.Multiplexer.RunUpdator` | core/sync.go:130-149 | after any sequence of statuses indexes and weight tables still equal the recomputation and the facts are the replay of the sequence; the tips that are right are those that were and those that some status of the sequence mended |
| `Multiplexers.RunFromFresh` | core/sync.go:57-149 | a freshly loaded gateway after any run: exactly the configured endpoints on supported chains, each with chain, weight, websocket and skipped methods of its configuration, the health of its last status or healthy, the head of its last status with one; the tip of a chain is the maximum of 0 and these heads |
| `Multiplexers.Multiplexer.Add` | core/multiplexer.go:85-101 | a known name changes nothing; a new one is indexed under name and chain and the state stays sound whatever head it brings; the one tip that can go wrong is its chain's, if and only if it brings a head above the tip |
| `Multiplexers.Multiplexer.LoadFromConfig` | core/multiplexer.go:218-232 | succeeds if and only if every configured chain begins with a supported namespace and a slash; then every configured endpoint is registered healthy and without a head beside those already known, in any iteration order; no right tip goes wrong |
| `Multiplexers.Multiplexer.IndexesAgree` | core/multiplexer.go:73-79 | in every sound state, so after any sequence of additions and statuses, right tips or not: an endpoint is in a chain's set if and only if it is registered under that name with that chain, as the same object; every weight row names an item of the set, so lookups by a drawn name cannot fail |
| `Multiplexers.Multiplexer.SelectOverHeight` | core/multiplexer.go:154-176 | for every draw: a healthy endpoint of the chain that does not skip the method and has its head at or above a positive height, or at or above the stored tip less the allowance for a height of zero or less; null if and only if there is none, and the drawn one if that will do; the stored tip is the tip where it is right; right or not, every request counting back from it finds an endpoint if a holder of it serves the method |
| `Multiplexers.Multiplexer.HeightIsResolved` | core/multiplexer.go:155-160 | in every sound state the stored tip is right if and only if every asked height resolves as it would from the true tip |
| `Multiplexers.Multiplexer.StoredTipIsReachable` | core/multiplexer.go:155-172 | in every sound state, right tips or not: a positive stored tip is some endpoint's head, and if a holder serves the method counting back from it by any allowance finds somebody |
| `Multiplexers.Multiplexer.DrawnByWeight` | core/endpoint_set.go:92-121 | in every sound state exactly as many random numbers below the limit draw a registered endpoint as its configured weight says, 100 if that is not positive, none if it is unhealthy |
| `Multiplexers.Multiplexer.Select` | core/multiplexer.go:103-120 | for every draw an endpoint of the chain that is healthy and does not skip the method, and null only if there is none |
| `Multiplexers.Multiplexer.SelectWebsocketEndpoint` | core/multiplexer.go:196-216 | the same among endpoints with a websocket: one whose head is at or above a positive height, at or above the stored tip less the allowance for a negative one, at any height for 0; null only if there is none |
| `Multiplexers.Multiplexer.AllHealthyEndpoints` | core/multiplexer.go:122-133 | lists every healthy endpoint of the chain that does not skip the method and, for a positive height, has its head at or above it, once each and nothing else; below zero there is no check |
| `Multiplexers.Multiplexer.RequestCacheKeys` | core/multiplexer.go:178-194 | the keys are prefix, name and slash for exactly the endpoints that a selection for the same height could return, at or above a positive height and counted back from the stored tip otherwise |
| `Multiplexers.Multiplexer.DefaultRelay` | core/multiplexer.go:277-308 | terminates; for a positive height it uses an endpoint with its head at or above it, and only if there is none one at most two below the stored tip; otherwise it counts back from the stored tip; not available only if there is none |
| `EndpointSets.EndpointSet.ResetMaxTipHeight` | core/endpoint_set.go:16-24 | whatever the stored tip was, it is the true tip afterwards |
| `EndpointSets.EndpointSet.ResetWeights` | core/endpoint_set.go:70-90 | the table has exactly one row per healthy item, as wide as its configured weight or 100 if that is not positive, whatever it was before and whatever the iteration order |
| `EndpointSets.EndpointSet.AppendWeights` | core/endpoint_set.go:51-68 | a healthy endpoint raises the limit by its configured weight, by 100 if that is not positive, in a row of its own behind the others; an unhealthy one changes nothing |
| `EndpointSets.EndpointSet.WeightSearch` | core/endpoint_set.go:108-121 | the binary search finds what a linear scan for the first row above the draw finds |
| `EndpointSets.EndpointSet.Choose` | core/multiplexer.go:161-173 | a random number below the limit yields the endpoint in whose row it falls if that suits; the sequential second attempt, made only after a successful draw, misses nothing |
| `Endpoints.Endpoint.constructor` | core/endpoint.go:23-48 | a new endpoint is healthy, has no head and skips exactly the configured methods: it is available for a method if and only if no height is asked for and the configuration does not skip it |
| `WeightTables.DrawsAreExact` | core/endpoint_set.go:100-121 | of the random numbers below the limit exactly as many draw a healthy endpoint as its configured weight says, 100 if that is not positive, and none draws an unhealthy one |
| `WeightTables.LimitIsTotal` | core/endpoint_set.go:92-98 | the limit of any exact table is the sum over the healthy endpoints of their configured weights, 100 for each that is not positive, in whatever order the rows came |
| `WeightTables.PickFindsInRange` | core/endpoint_set.go:108-121 | a search succeeds if and only if the draw lies in [0, limit) |
| `WeightTables.DrawsHealthy` | core/endpoint_set.go:100-106 | a draw names a healthy endpoint, and fails only if there is none |
| `WeightTables.AppendKeepsExact` | core/endpoint_set.go:45-49 | adding an endpoint to a set keeps its table exact if and only if the name is new or stood for an unhealthy endpoint |
| `Derived.AddAgrees` | core/multiplexer.go:91-99 | names and weights agree with the facts after any addition; the right tips are those that were, less the newcomer's chain if its head exceeds the tip |
| `Derived.AddLeavesTipWrong` | core/multiplexer.go:85-101 | one endpoint whose head is the right tip, then one with a higher head is added: the stored tip is wrong, and a laggard is usable at two below it that is not at two below the true tip |
| `Derived.HeadAgrees` | core/sync.go:84-126 | after a rescan or a raise names and weights still agree and a tip is right if and only if it was or the head mends it |
| `Derived.RaisedTip` | core/sync.go:114-123 | as long as no head falls, an endpoint that comes or changes raises its chain's true tip to its head at most, and no other chain's |
| `Derived.SameHealthSameRouting` | core/endpoint_set.go:70-90 | fleets that differ in heads alone have the same exact weight tables and serve the same requests where no height is asked for |
| `Fleets.TipIsReachable` | core/multiplexer.go:155-172 | for any height that is 0 or some head of the chain, the true tip among them: if it is positive an endpoint of the chain holds it, and if a holder serves the method every request counting back from it finds an endpoint; at 0 it finds all that serve |
| `Fleets.CountingBackFails` | core/multiplexer.go:155-172 | counting back from the tip, or whatever is stored for it, finds nobody if and only if nobody serves the method or the greatest head among those who do lags it by more than the allowance |
| `Fleets.UsableAreOffers` | core/endpoint.go:344-362 | who may be used, spelled out: the healthy endpoints of the chain that do not skip the method and, where a positive height is asked for, have a head at or above it |
| `Fleets.UnhealthyTipStrands` | core/endpoint_set.go:16-24 | a chain where an unhealthy leader makes the only healthy endpoint unusable at two below the tip |
| `Replays.ReplaySettles` | core/sync.go:57-128 | after any run each endpoint has the health of its last status and the head of its last status with a head |
| `Replays.LastStatusStands` | core/sync.go:130-149 | the last status of an endpoint is at some position that no later status of it follows, and there is none if none names it |
| `Replays.LastHeadStands` | core/sync.go:84-126 | the last head is that of a status that no later status of the endpoint with a head follows, and there is none if no status of it has one |
| `Replays.InterleavingIsInvisible` | core/sync.go:130-149 | two runs with the same statuses per endpoint in the same order end alike, however they interleave endpoints |
| `Replays.RedeliveryIsInvisible` | core/sync.go:57-128 | delivering any tail of a run again changes nothing |
| `Replays.HeardEqualsAll` | core/sync.go:130-149 | whoever heard some statuses instead of others and then the same news ends alike if and only if health and head of each endpoint agreed before or came again |
| `Replays.CatchUpHoldsTheLast` | core/redis_stream_chain_hub.go:52-62 | the newest-first, once-per-endpoint list holds each endpoint's last status of the window and nothing else |
| `Replays.CatchUpEqualsReplay` | core/redis_stream_chain_hub.go:43-64 | catching up gives the health of a full replay always, and the whole state if and only if every endpoint's newest entry carries a head or the window has no other head of it than the known one |
| `Replays.CatchUpCanLoseHeads` | core/redis_stream_chain_hub.go:43-64 | a window ending in a failed poll for which catch-up and replay differ |
| `Replays.CatchUpThenListen` | core/redis_stream_chain_hub.go:128-139 | catching up, then hearing a tail of the window again and all news, ends as an uninterrupted listener if and only if each head is carried or heard again |
| `Replays.CatchUpThenMiss` | core/redis_stream_chain_hub.go:43-142 | catching up, missing some entries and hearing the rest ends as a full replay if and only if each endpoint's health and head that were missed are known all the same or heard again |
| `StreamHubs.StreamHub.Subscribe` | core/redis_stream_chain_hub.go:43-64 | sends the new channel the deduplicated newest 100 up to the first undecodable entry, fails if and only if there is one, and stays subscribed either way |
| `StreamHubs.SnapshotIsCatchUp` | core/redis_stream_chain_hub.go:46-62 | of a decodable stream what a subscriber is sent is the catch-up of its last 100 entries |
| `StreamHubs.StreamHub.XAdd` | core/redis_stream_chain_hub.go:187-201 | what the store holds is always the newest 1000 of everything ever appended, each under its position |
| `StreamHubs.StreamHub.Listen` | core/redis_stream_chain_hub.go:104-142 | one turn sends every subscriber the entries behind the cursor up to the first undecodable one, moves the cursor with them, and stops for good at the latter |
| `StreamHubs.StreamHub.Unsubscribe` | core/redis_stream_chain_hub.go:87-98 | takes out the first subscription of the channel and keeps the order of the others |
| `StreamHubs.ListenerDelivers` | core/redis_stream_chain_hub.go:104-142 | over any run of appends and reads the listener delivers in order and without duplicates, and without gaps if and only if no read came after undelivered entries were trimmed |
| `StreamHubs.ListenerStarts` | core/redis_stream_chain_hub.go:113-116 | delivery starts at the entry that was newest when a read first found any |
| `StreamHubs.NewsIsStretch` | core/redis_stream_chain_hub.go:104-142 | unless it skips, a run of the listener delivers one stretch of the stream, from where it stood to where it stands |
| `StreamHubs.HeardIsNews` | core/redis_stream_chain_hub.go:104-142 | what a run sends to the subscribers are the statuses at exactly the positions it delivers |
| `StreamHubs.ReadsCatchUp` | core/redis_stream_chain_hub.go:117-119 | every read delivers the next ten entries or as many as there are: after as many reads as it takes a lagging listener has delivered everything to the end |
| `StreamHubs.StreamHub.Drive` | core/redis_stream_chain_hub.go:104-142 | any sequence of appends and turns of the listening loop leaves stream, cursor and all channels as the run of the state machine says |
| `StreamHubs.StreamHub.Follow` | core/redis_stream_chain_hub.go:43-142 | a new channel then receives its catch-up followed by all that the listener delivers in that run, and nothing else |
| `StreamHubs.SubscriberIsCurrent` | core/redis_stream_chain_hub.go:43-142 | for any run of appends and reads after a subscription in which the listener does not skip and gets past the subscription, wherever it stood: the subscriber shows what a replay of all these entries shows if and only if for each endpoint what it missed before the first read is known all the same or said again, and its head is carried or heard |
| `StreamHubs.SubscriberInAnyRun` | core/redis_stream_chain_hub.go:43-142 | for any run at all, skipping or lagging listeners included, and a replay from any point of the stream: the subscriber shows it if and only if the last it was told of each endpoint, by catch-up or listener, says what the last of all says |
| `StreamHubs.FirstReadMisses` | core/redis_stream_chain_hub.go:113-116 | two entries appended to an empty stream between two reads: nobody ever hears the first, and the state differs from a replay |
| `StreamHubs.LaggingListenerLosesNothing` | core/redis_stream_chain_hub.go:104-142 | if the listener delivers the whole window again the subscriber ends exactly as a replay |
| `Channels.FanoutAllReaches` | core/redis_stream_chain_hub.go:134-137 | a channel subscribed once receives each broadcast once and in order, any other nothing |
| `Channels.WithoutFirstKeeps` | core/memory_chain_hub.go:44-55 | without double subscriptions a removal removes that channel for good and nobody else |
| `Channels.Unsubscribed` | core/memory_chain_hub.go:44-55 | cutting out the found index removes the first occurrence and keeps the order of the rest |
| `MemoryHubs.MemoryHub.Subscribe` | core/memory_chain_hub.go:33-38 | sends the snapshots of all chains, each once, in some order |
| `MemoryHubs.MemoryHub.Publish` | core/memory_chain_hub.go:79-87 | remembers the status for its chain and sends it to every subscriber |
| `MemoryHubs.MemoryHub.Run` | core/memory_chain_hub.go:61-89 | whatever commands arrive, the loop performs a run of the state machine that the next theorems are about |
| `MemoryHubs.SnapshotsAreLast` | core/memory_chain_hub.go:83 | in every run the snapshot of a chain is the last status published for it, and there is one if and only if something was published |
| `MemoryHubs.SubscribersAreListening` | core/memory_chain_hub.go:33-55 | in every run without double subscriptions the subscriber list holds exactly the channels whose last own command was a subscription |
| `MemoryHubs.ChannelReceives` | core/memory_chain_hub.go:61-89 | in every such run a channel has received the snapshots of its subscriptions and exactly the statuses published while it was subscribed, in order |
| `MemoryHubs.UnsubscribedReceivesNothing` | core/memory_chain_hub.go:44-55 | in every run a channel that was unsubscribed has received nothing more, whatever was published since |
| `MemoryHubs.LateSubscriberHears` | core/memory_chain_hub.go:33-38 | a channel that subscribes late hears the last status of each chain and then all that is published from then on |
| `MemoryHubs.LateSubscriber` | core/memory_chain_hub.go:33-38 | in every run of the hub a late subscriber ends where everything published leads if and only if for each endpoint its last status was the last of its chain and its head is carried, or health and head are published again since, or what was published before leaves it as it was |
| `MemoryHubs.LateSubscriberOfAnyChains` | core/memory_chain_hub.go:33-38 | the same in terms of the snapshots for publishers that would mix chains |
| `MemoryHubs.SnapshotsForgetEndpoints` | core/memory_chain_hub.go:33-38 | two endpoints on one chain: a run after which a late subscriber ends in a state that the published statuses do not give |
| `Fetching.SyncEndpoint` | core/fetch.go:60-99 | over any outcomes of successive polls the loop publishes exactly the unsuppressed statuses, each for this endpoint under its own chain and healthy if and only if it has a head; the endpoint is left connected if and only if the last poll that failed or brought a block brought one |
| `Fetching.SuppressionShows` | core/fetch.go:15-42 | the fleet is the same with and without suppression after every prefix of the events if and only if every suppressed poll finds the endpoint, if known, healthy and with that head; any statuses, of this endpoint too, may come in between |
| `Fetching.SuppressionIsInvisible` | core/fetch.go:15-42 | harmless suppression ends as if every head had been published, whoever else publishes for the endpoint |
| `Fetching.OnlyPublisherIsHarmless` | core/fetch.go:15-42 | an endpoint's only publisher suppresses nothing that the fleet does not show, for any polls and any statuses of other endpoints |
| `Fetching.SecondPublisher` | core/fetch.go:15-42 | with one status of a second publisher between two polls of the same block suppression is harmless if and only if that status is healthy and brings no other block; what is left otherwise is that status |
| `Pipelines.PollsAreShown` | core/fetch.go:15-99 | for all pollers of a gateway at once and any interleaving, the suppressed statuses leave the fleet with the health of each endpoint's last poll that failed or brought a block and the head of the last that brought one |
| `Pipelines.LastPollTells` | core/fetch.go:15-99 | poll by poll: an endpoint is healthy as its last poll that failed or brought a block says, its head is the last block that a poll brought, and it is as it was if no poll told anything |
| `Pipelines.PollersAreOneChain` | core/fetch.go:24-50 | pollers publish every endpoint under its own chain, which is what the theorem on late subscribers asks |
| `Pipelines.RunGateway` | core/sync.go:130-149 | polls, in-memory hub and updater together: the routing state ends with what the nodes said last, sound, and with right tips if they were right |
| `Pipelines.JoinLate` | core/memory_chain_hub.go:33-87 | a gateway whose updater subscribes to an in-memory hub after any run of it ends sound, and its facts are those of everything published if and only if it is informed of every endpoint, by snapshot, by later statuses or because nothing changed |
| `Pipelines.JoinStream` | core/redis_stream_chain_hub.go:43-142 | a gateway whose updater subscribes to the shared stream, for any appends and reads, ends sound with the facts of catch-up and deliveries; past the subscription and without skipping these are the facts of the stream if and only if every endpoint recovers |
| `RateLimits.Store.Incr` | ratelimit/ratelimit.go:40-84 | increment, conditional reset and expiry add up to the transition that the counting theorems are about |
| `RateLimits.Store.Values` | ratelimit/ratelimit.go:86-114 | reports exactly the counters at or above the base, less the base |
| `RateLimits.SameWindow` | ratelimit/ratelimit.go:29-38 | at all times, before 1970 included, two calls share a key if and only if they have the same span and one window holds both |
| `RateLimits.SlotIsWindow` | ratelimit/ratelimit.go:35 | the division towards zero puts a time into a slot if and only if it lies in that slot's window, where slot 0 is the span before and the span after time 0 |
| `RateLimits.TwoSpansOutlive` | ratelimit/ratelimit.go:70-78 | an expiry of two spans set in a window is later than every time of that window |
| `RateLimits.CountsExactly` | ratelimit/ratelimit.go:55-83 | over any run of calls of any fields, spans and limits no count is lost to expiry or to other fields: each counter stands where its own calls alone put it and admits as many as they alone would be admitted |
| `RateLimits.HashesExpire` | ratelimit/ratelimit.go:70-79 | unless a limit is below -998 every hash expires, exactly two spans after one of its calls |
| `RateLimits.TallyCounts` | ratelimit/ratelimit.go:61-70 | a counter stands at the base plus its calls less one if and only if its first call was let in, whatever limits they came with; else lower |
| `RateLimits.SequentialLimit` | ratelimit/ratelimit.go:55-83 | a call is admitted if and only if the calls before it on its counter, whatever their limits, are fewer than its own limit - exactly unless it is the first and its limit is between -998 and 0, or the counter began with a limit below that |
| `RateLimits.ReportedIsOneShort` | ratelimit/ratelimit.go:106-112 | what is reported as used is one less than the calls made, if and only if the first of them was let in |
| `RateLimits.TwiceTheLimit` | ratelimit/ratelimit.go:29-84 | with any mix of limits a window admits at most the greatest quota asked for, and any stretch of one span at most twice that |
| `RateLimits.TwiceTheLimitIsReached` | ratelimit/ratelimit.go:29-84 | and that is reached at the edge of two windows |
| `RateRaces.RaceLimit` | ratelimit/ratelimit.go:55-83 | for every interleaving of increments, each with a positive limit of its own (server/config.go makes them so), and resets: if `s` callers have to reset and nobody asks for more than `most`, at most `s * most` calls are admitted for `s` below a thousand, so at most the limit for `s` = 1 and none for `s` = 0; `s` never exceeds a thousand, and there it is most - 1 more |
| `RateRaces.RaceOfAnyLimits` | ratelimit/ratelimit.go:55-83 | the same for limits of any sign: at most `s * most`, and most - 1 more only when over a thousand callers came before the first reset |
| `RateRaces.RefusedCallersMakeRoom` | ratelimit/ratelimit.go:59-70 | the exception is needed below a thousand: behind 999 callers with a very low limit one first caller lets 2 * limit - 1 calls in |
| `RateRaces.InTurnCountsExactly` | ratelimit/ratelimit.go:55-83 | without overlap the two operations give, for any sequence of limits, the counter and the admissions of the limiter called in turn |
| `RateRaces.RaceLimitIsReached` | ratelimit/ratelimit.go:55-83 | for every `s` up to a thousand some interleaving admits exactly that many |
| `Broadcasts.BroadcastCollects` | core/multiplexer.go:234-264 | every completed interleaving of calls and locked appends leaves exactly one result per endpoint, its own, and each carries an error or a response |
| `Broadcasts.BroadcastProgresses` | core/multiplexer.go:244-262 | some step is possible if and only if somebody is at work whose call comes back |
| `Broadcasts.Wait` | core/multiplexer.go:244-263 | whichever possible step is taken next, the goroutines come to an end, all of them get through if and only if every call comes back |
| `Broadcasts.BroadcastRPC` | core/multiplexer.go:234-264 | a broadcast asks exactly the endpoints available at the raw height and ends with one result of each, unless a call takes the gateway down |
| `Web3Choices.ChooseRaw` | chains/web3.go:192-222 | a result if there is any, else an error of code -32000, else an error, else any message, else the error of a failed call, always the first of its kind; it would crash if and only if a result with neither error nor response came before every proper result |
| `Web3Choices.ChooseCount` | chains/web3.go:230-275 | picks the first answer with the greatest decodable nonce, 0 included; without a nonce the first error, else the first message, else the first failure |
| `Web3Choices.SendRawTransaction` | chains/web3.go:186-222 | from any sound routing state and for every schedule the answer is a reply of an endpoint that serves the method: a result if any replied one, else an error of code -32000 if any did, else an error, else any message; the gateway goes down only if one of the calls comes back with nothing; with nobody to ask the relay is in vain |
| `Web3Choices.RankIgnoresOrder` | chains/web3.go:186-222 | the rank of the answer is the same for every order of the results |
| `Web3Choices.GetTransactionCount` | chains/web3.go:224-275 | the same for the greatest number that any of them replied in a decodable result; without one an error response if there is any, else a response if there is any, else a failure |
| `Web3Choices.NonceIgnoresOrder` | chains/web3.go:230-256 | whether there is a nonce and which one is returned is the same for every order of the results |
| `Web3Choices.AnswersIgnoreInterleaving` | chains/web3.go:186-275 | for any two completed interleavings of a broadcast with the same replies: no crash, same nonce and same rank |
| `JsonrpcCaches.JsonrpcCacheFetch` | chains/jsonrpc_cache.go:16-80 | after any writes and expiries and in any sound routing state, a hit is the latest unexpired answer to the request of an endpoint selectable now at that height; a miss means that there is none, that the one found cannot be decoded, or that there is no store or it fails |
| `JsonrpcCaches.FirstHit` | chains/jsonrpc_cache.go:27-44 | the first of the probed keys that holds an unexpired value decides: its decoded value is the hit, and if it cannot be decoded no other is tried |
| `JsonrpcCaches.LookupFindsLatest` | chains/jsonrpc_cache.go:47-65 | over any sequence of writes the key of an endpoint and request holds their last write, undisturbed by others |
| `JsonrpcCaches.LatestStands` | chains/jsonrpc_cache.go:47-65 | that write is the one no later write of the endpoint and request follows, and it counts as long as its time and expiration are not past |
| `ChainRefs.ParseThenPrint` | core/chain.go:10-32 | exactly the texts with a slash parse, and printing the result gives the text back |
| `ChainRefs.PrintThenParse` | core/chain.go:10-32 | parsing a printed reference gives it back if and only if its namespace holds no slash |

## Left out

- HTTP, WebSocket and GraphQL piping, JSON, Redis plumbing, logging and metrics: I/O.
- Per-chain adapters other than the two choices of the web3 chain: fixed calls with constant height offsets.
- The unused Redis pub/sub hub, network error counting, presence cache, accounts and admin server: they would only add easy members.
- The race between a subscription and a broadcast of the stream hub on one channel, and channels that are full: subscribing is one step and sends do not block.
- RateLimits.Store.Incr: takes its time and span as given, in whole seconds and with a positive span; merging option lists, the one-hour default, the panic on other spans and errors of the store are not modelled.
- RateLimits.Store.Values: takes every stored value to be a number.
- Fetching.SyncEndpoint: starts after the adapter has agreed to be polled; the pauses between polls are not modelled.
- Multiplexers.Multiplexer.DefaultRelay: names the endpoint that is called, not what the call returns.
- Endpoint selection by name and by request header: a scan like the others.
- Integer overflow of weight sums, heights and counters.
- Configuration loading and validation; the default fetch interval is assigned to a copy in core/config.go:77-105 and does not persist.
- The header that names the answering endpoint; with equal nonces which of the answers is returned depends on completion order.
- Go's sort.Search is not part of this repository; the binary search is written out as its documentation describes it.
