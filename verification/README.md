# A model of meshlink-core

meshlink-core is the relay logic of a Bluetooth mesh messenger. Devices receive signed packets of at
most 460 bytes, drop what is malformed, stale, duplicated, too frequent or unsigned, and hand the rest
on in fewer and fewer copies (binary Spray-and-Wait). Friends find each other over the same packets
and grant each other signed permission to ask for their location.

This project models that logic in Dafny and proves what it keeps over every run:

- **The relay pipeline** (`RelayPipeline`, `PipelineHistory`, `PipelineOutcomes`, `PipelineRuns`). One object drives a
  deduplication cache (`DedupCache`), a rate limiter (`RateLimiter`), a map of attestation tickets
  (`Attestation`) and a spray budget (`SprayAndWait`). Each is a class with the fields of the program's
  and is proved against a specification that speaks of the history alone: what passed, what was
  accepted, when (`DedupHistory`, `RateLimitHistory`). The laws over runs are then proved of these
  histories: between two passes of one message 10,000 others must have passed, at most ten signature
  checks per sender in ten seconds, the ban law, isolation of senders from each other
  (`RateLimiterRuns`).
- **The network** (`Network`, `NetworkWeights`, `NetworkSends`, `Topologies`, `Device`). Any number of
  devices, any topology, any traffic, packets in flight that arrive in any order or get lost. What a
  copy is and where it can have come from, that every run ends, how often a message is sent.
- **How far a message gets** (`SpreadPlans`, `MessageArrival`, `Broadcasts`, `BroadcastRuns`). The
  devices that deliver a message are those of a plan, a notion about the topology alone, and every plan
  is how some run goes. From this follows the exact reach on lines, stars, meshes and trees of any
  size, and when the order of arrival matters elsewhere.
- **Consent** (`Friendship`, `Consent`, `CapabilityToken`). Two parties run the friendship state
  machine over a network that loses, repeats and reorders their messages; and the tokens they sign.
- **The bytes** (`Packet`, `Signing`, `Copies`, `FriendWire`, `EndToEnd`). The codecs, in both
  directions, and one theorem that spans them: what a friend composes is what the recipient reads, any
  number of hops later.

## Assumptions

- A device's clock readings are nonnegative and never decrease, within one packet (steps 3, 4, 5 and
  7 each read the clock) and from one packet to the next. Readings are reals; `int(time.time())` is
  their floor.
- Handling one packet is one atomic step of a device. The code has no lock and
  `transport/socket_transport.py:70` starts a thread per connection, so this is an assumption.
- The Bloom filter answers for everything added to it, and each check carries an arbitrary `falseHit`
  that makes it answer for more. Adding beyond the declared capacity of 12,000 is a precondition, so
  that it never happens is proved.
- Hashing, signing, signature verification, UTF-8 and sealed envelopes are function parameters. Where
  a theorem needs a law of theirs it is a named predicate in its `requires`: signatures made with a key
  verify under it (`SignsFor`), a presented token whose signature verifies was signed by the key's
  owner (`NotForged`), decoding undoes encoding (`Faithful`), opening undoes sealing (`OpensFor`), and
  the hash tells two given contents apart (`TellsApart`).
- Clock readings, nonces, ephemeral keys and the default timestamp are parameters. `None` for a
  dropped reason and Python exceptions are `Option` and `Result` values; a drop reason is a datatype,
  not a text.
- In the network, a device's state is the run of its event log; `Device.HandleLocal` shows that the
  object reaches exactly that state and sends exactly those copies.

## Where code and documentation disagree

The model follows the code.

- `docs/message-format.md:74` says that inflating spray_L causes a ban. The code drops the packet and
  bans nobody (`routing/spray_and_wait.py:45-55`): `PipelineRuns.InflationBansNobody`.
- The same line has a relay give a peer floor(L/2) copies and keep ceil(L/2). A device hands floor(L/2)
  to every neighbour and stores nothing (`sim/device.py:81-92`). As many copies leave it as came only
  with two neighbours and an even L, or with three and L = 3: `NetworkWeights.CopiesConservedIff`.
- The comment at `pipeline/message.py:69` has the signature cover the bytes 0 to 75 + payload_len. It
  covers them without the two hop bytes (`pipeline/message.py:47-53`).
- The `README.md:13-14` of the repository marks steps 5 and 6 as stubs. Both are implemented.
- `pipeline/dedup_check.py:9` gives ids ten minutes to live. An older id is still answered "duplicate"
  until a rebuild: `DedupHistory.ExpiredYetRemembered`, and exactly when it is forgotten:
  `DedupHistory.ForgottenExactlyAtRebuild`.
- `pipeline/message.py:59` calls msg_id content-addressed. No step compares it with the content, and
  simulated devices choose it freely, so no theorem about runs assumes that two ids differ because
  their contents do. What the derived id names is `Signing.IdNamesContent`.
- `capability/token.py:137` says that verify is a pure yes or no. It raises for some keys that are not
  32 bytes long, and exactly when: `CapabilityTokens.VerifyRaises`.
- `capability/token.py:166-168` says that a revocation key names exactly one token. Two tokens that
  differ in expiry or scope only share it: `CapabilityTokens.SharedRevocationKey` gives them, and
  `CapabilityTokens.RevocationKeyDetermines` says what more is needed.
- The states listed in `friends/state.py:15` suggest that both sides of a friendship arrive in FRIENDS.
  They do, or are about to, in all runs iff not both sides ask and nobody declines or unfriends:
  `Consent.MutualIff`, from `Consent.FriendshipIsMutual` and a run for each of the three exceptions.

## Model

| member | source | states |
|---|---|---|
| PipelineRuns.AtMostOnce | pipeline/pipeline.py:75-85 | in every run, two packets with the same id and timestamp both pass step 4 only if at least 10,000 different other ids passed in between; Bloom errors, evictions and rebuilds included |
| PipelineRuns.CryptoWorkBound | pipeline/pipeline.py:83-89 | over every run, at most ten signatures per ephemeral id are verified in any closed ten-second interval, whatever arrives |
| PipelineRuns.VerificationsAreAccepts | pipeline/pipeline.py:83-89 | signature verifications counted over a run are exactly the limiter's accepts for that sender and interval |
| PipelineRuns.DropFreezesLaterState | pipeline/pipeline.py:60-101 | a packet dropped at one step leaves all state owned by later steps as it was; before step 4 it changes nothing |
| PipelineRuns.TicketLaw | pipeline/attestation_check.py:55-72 | a packet with a verified signature gets past step 7 iff the sender's most recently accepted token expires after the clock reading, however lazily entries are deleted |
| PipelineRuns.TicketsTrackLatest | pipeline/attestation_check.py:59-72 | at every point of a run the map holds each sender's latest accepted token, or has dropped it because it had expired |
| PipelineRuns.SprayLaw | routing/spray_and_wait.py:45-55 | no delivered packet has more copies than the first of its id to pass steps 1 to 7, in the whole run, and what is forwarded carries at most half of that |
| PipelineRuns.BudgetsAreFirst | routing/spray_and_wait.py:48-52 | the stored budget of an id is the spray_L of the first packet of the run that carried it past step 7 |
| PipelineRuns.PassedGrows | pipeline/dedup_check.py:45-52 | the dedup history counts the packets that passed step 4 and only ever grows |
| PipelineRuns.InflationBansNobody | routing/spray_and_wait.py:45-55 | a packet dropped because its spray_L was inflated starts no ban and ends none, for any sender |
| PipelineRuns.DeliveryMeans | pipeline/pipeline.py:91-104 | a delivered packet is the parsed packet, within its budget, with its onward copy |
| PipelineRuns.OnwardCopyMeans | pipeline/pipeline.py:107-120 | an onward copy parses to the same message with one hop less and half the copies, both at least 1 |
| PipelineOutcomes.DeliveredIff | pipeline/pipeline.py:60-104 | said of the bytes: a packet is delivered iff 139 to 460 bytes long as it claims, with a hop left, at most 300 s old and 30 s ahead, not remembered, met by a limiter with room, signed by its sender over all but the two hop bytes, and with ticket and budget in order |
| PipelineOutcomes.EarlyOutcome | pipeline/pipeline.py:60-81 | each drop of steps 1 to 4 and of parsing iff, in the order of the checks, what the length, bytes 64 to 68, 73 and 74, the clock and the memory say |
| PipelineOutcomes.WorkOutcome | pipeline/pipeline.py:79-89 | which packets pass step 4 and which make the verifier work, and of these a bad signature is the outcome iff the verifier rejects key, signed bytes and signature |
| PipelineOutcomes.LateOutcome | pipeline/pipeline.py:91-104 | of packets with a verified signature: no ticket, an expired ticket, an inflated budget and delivery, each by what is stored |
| PipelineHistory.ProcessHistories | pipeline/pipeline.py:60-89 | what one packet adds to the two histories, and that a passing packet had an acceptable timestamp and an id that was not remembered |
| PipelineHistory.StepSound | pipeline/pipeline.py:60-104 | every event keeps both histories lawful: dedup consistent, limiter answers all owed |
| PipelineHistory.RunSound | pipeline/pipeline.py:54-104 | hence both histories are lawful at every point of every run from a fresh pipeline |
| RelayPipelines.RelayPipeline.Process | pipeline/pipeline.py:60-104 | the object's new state and answer are those of the history specification, what it delivers carries a verifying signature of all but the hop bytes, and the stages a dropped packet never reached are untouched as objects |
| RelayPipelines.RelayPipeline.constructor | pipeline/pipeline.py:54-58 | a new pipeline has seen nothing; the attestation cache is the one it was given |
| RelayPipelines.RunPipeline | pipeline/pipeline.py:54-104 | a fresh pipeline fed any sequence of packets and tokens answers as the history specification does, packet by packet |
| RateLimitHistory.SenderIsolation | pipeline/rate_limit_check.py:42-73 | a sender's checks, taken out of any interleaved run, carry the answers of a limiter that saw nobody else |
| RateLimiterRuns.IsolatedAnswers | pipeline/rate_limit_check.py:42-82 | the answers one sender gets to any interleaved sequence of requests equal those of a fresh limiter that gets only that sender's requests: others and pruning are unobservable |
| RateLimiterRuns.RunLimiter | pipeline/rate_limit_check.py:37-82 | a run of the implemented limiter, pruning every 1,000 checks, gives exactly the answers owed on the history of requests |
| RateLimitHistory.AnswersDetermined | pipeline/rate_limit_check.py:42-73 | two lawful histories of one sender with the same checks at the same times have the same answers |
| RateLimitHistory.AnswerLaw | pipeline/rate_limit_check.py:48-73 | each of the four answers iff: banned; room for it in [now - 10, now]; no room with two rejections pending; no room otherwise |
| RateLimitHistory.TwoPendingMeaning | pipeline/rate_limit_check.py:57-72 | the streak counter is 2 or more iff two window-full rejections stand since the last accept or ban start |
| RateLimitHistory.StreakAtMostTwo | pipeline/rate_limit_check.py:58-61 | the third violation in a row always bans: the counter at rest is at most 2 |
| RateLimitHistory.WindowBound | pipeline/rate_limit_check.py:54-73 | any closed ten-second interval holds at most ten accepts of one sender, over every run |
| RateLimitHistory.BanLaw | pipeline/rate_limit_check.py:51-73 | after the check that starts a ban everything in the next sixty seconds is dropped, and the first check at or after expiry is accepted |
| RateLimitHistory.BanHolds | pipeline/rate_limit_check.py:51-61 | during a ban the ban stays as it is, the streak stays 0 and no accept is younger than the ban |
| RateLimiting.RateLimiter.Check | pipeline/rate_limit_check.py:42-73 | answers exactly what is owed on the sender's own history, whether its state was stored, fresh or pruned away |
| RateLimiting.RateLimiter.Prune | pipeline/rate_limit_check.py:75-82 | forgets exactly the senders idle for over 600 s, so the test for a running ban never keeps one; no later answer changes |
| RateLimiting.RateLimiter.Housekeep | pipeline/rate_limit_check.py:43-46 | after every thousandth check nobody idle for over 600 s is stored, and after any other check nobody was forgotten |
| RateLimiting.PopExpired | pipeline/rate_limit_check.py:54-55 | what remains in the deque is as many accepts as the sender has in [now - 10, now] |
| RateLimiting.Judge | pipeline/rate_limit_check.py:48-73 | the decision about one sender is the one owed, and the stored state keeps agreeing with the longer history |
| DedupHistory.ForgottenExactlyAtRebuild | pipeline/dedup_check.py:54-66 | an id stops being answered iff this pass brings the evictions to 1,000 and the id is neither young nor among the newest 10,000 |
| DedupHistory.ExpiredYetRemembered | pipeline/dedup_check.py:54-66 | an id over 600 s old can be evicted and still be answered "duplicate" |
| DedupHistory.ForgottenMeansOvertaken | pipeline/dedup_check.py:54-66 | an id that passed and is no longer remembered is over 600 s old or was followed by 10,000 distinct others |
| DedupHistory.AdmitKeepsCurrent | pipeline/dedup_check.py:48-61 | after each pass the LRU is, in order, exactly the passes at most 600 s old among the newest 10,000 |
| DedupHistory.AdmitConsistent | pipeline/dedup_check.py:48-66 | every pass of a new id keeps the history in order, free of repetition since the rebuild, and evicting only what may go |
| Deduplication.FilterAgreesWithLru | pipeline/dedup_check.py:34-66 | at rest the filter holds exactly the live ids and those evicted since the rebuild, live plus evicted in number, and is below capacity |
| Deduplication.DedupCache.Check | pipeline/dedup_check.py:45-52 | answers "duplicate" iff the id is remembered or the filter errs; a duplicate changes nothing |
| Deduplication.DedupCache.Evict | pipeline/dedup_check.py:54-66 | drops exactly the front that is out of date and rebuilds exactly when 1,000 have accumulated, never filling the filter |
| Deduplication.DedupCache.Rebuild | pipeline/dedup_check.py:63-66 | a fresh filter certain of exactly the live ids |
| Attestation.AttestationCache.AddToken | pipeline/attestation_check.py:55-62 | a decoded token is cached iff its key has 32 bytes and it has not expired, overwriting any earlier one |
| Attestation.AttestationCache.Check | pipeline/attestation_check.py:64-72 | no ticket iff nothing is stored, none needed iff it expires after the reading, and an expired entry goes when it is looked at |
| SprayAndWait.SplitCopies | routing/spray_and_wait.py:17-27 | both shares add up to the budget, the peer gets the smaller half, and nothing is made out of nothing |
| SprayAndWait.WaitPhaseForwardsNothing | routing/spray_and_wait.py:30-33 | waiting is the same as having nothing to hand on |
| SprayAndWait.HalveIsDivision | routing/spray_and_wait.py:25 | h hops of halving are one division by 2^h |
| SprayAndWait.SurvivesUpToLog | routing/spray_and_wait.py:23-27 | a budget L survives h hops iff h is at most floor(log2 L) |
| SprayAndWait.SprayBudgetTracker.Check | routing/spray_and_wait.py:47-55 | the first sighting sets the budget for good; later ones are dropped iff above it |
| Copies.CopyMeans | sim/packet.py:41-49 | what h hops make of a packet parses to the same message with ttl - h and floor(L / 2^h), every other byte is the sender's, its signature verifies iff the sender's does, and h is at most 7 |
| Copies.AliveWithinReach | routing/spray_and_wait.py:23-27 | both budgets last h hops iff h is at most min(T-1, floor(log2 L)) |
| Copies.ReachAtMostSeven | routing/spray_and_wait.py:23-27 | one byte of copies reaches seven hops at most |
| Network.Lineage | sim/device.py:68-92 | in every run every copy ever sent is an injected packet with the hop bytes of its h-th hop, and a walk of h hops leads from where it was injected to where it went |
| Network.DeliveredWithinReach | sim/device.py:68-92 | in every run of every network, among any traffic, losses and orders, what a device delivers was injected at most min(T-1, floor(log2 L)) hops away |
| NetworkWeights.RunsEnd | sim/device.py:81-92 | on any topology, from any state, at most a computed number of arrivals and losses can follow: every run ends, without appeal to deduplication |
| NetworkWeights.ActLightens | sim/device.py:81-92 | each arrival replaces a packet in flight by lighter ones, where W(l) = 1 + maxdegree * W(l/2) |
| NetworkWeights.Drains | sim/device.py:64-92 | from any state of any network some run without losses leaves nothing in flight |
| NetworkWeights.CopiesConservedIff | sim/device.py:81-92 | as many copies leave a relaying device as came iff it has two neighbours and an even budget, or three and a budget of 3 |
| NetworkWeights.ArrivalConservesIff | sim/device.py:68-92 | over a whole step, the budgets in flight add up to the same iff the packet was relayed under that condition, or was not relayed and carried none |
| NetworkSends.SendsAreOwed | sim/device.py:68-92 | in every run what each device has sent of a message, to everybody or to one neighbour, is exactly one copy per relaying event and entry of its neighbour list |
| NetworkSends.SendsOncePerEdge | sim/device.py:81-92 | what passes step 4 of a device at most once, the device sends to each of its neighbours at most as often as its list names it, which on the simulated topologies is once, and to nobody else, whatever is injected, lost or reordered |
| NetworkSends.RememberedPassesOnce | pipeline/pipeline.py:79-81 | a device that at every point remembers every id that passed lets each id pass at most once, whatever its timestamps |
| NetworkSends.CachedPassesOnce | pipeline/pipeline.py:75-81 | a device past whose step 4 at most 10,000 ids came lets an id with one timestamp pass at most once, even if it forgot ids by age |
| NetworkSends.SendsAtMostEdges | sim/device.py:81-92 | and so all devices together send it at most as often as there are directed edges |
| NetworkSends.SendsWhileRemembered | sim/device.py:81-92 | in every run, a device that never forgets an id sends each message id at most once over each of its edges |
| NetworkSends.SendsWhileCached | sim/device.py:81-92 | in every run, a device whose passes fit its cache sends each id with one timestamp at most once over each of its edges, even if it forgot ids by age |
| NetworkSends.EdgesOfShapes | sim/topologies/mesh.py:1-3 | the simulated topologies repeat no neighbour; a line or star of n devices has 2(n-1) directed edges, a mesh n(n-1) |
| SpreadPlans.TreesAreExact | sim/device.py:81-92 | on a tree, however a message spreads, it gets exactly to the levels within its reach |
| SpreadPlans.ExactEverywhereIff | sim/device.py:81-92 | all plans on all two-way topologies of n devices are exact iff the reach is at most 1 or at least n-1 |
| SpreadPlans.KiteMisses | sim/device.py:81-92 | for every reach in between, a topology of n devices with a plan that misses a device within the reach |
| SpreadPlans.LongReachPlan | sim/device.py:81-92 | with a reach of n-1 or more a plan contains exactly the devices connected to the source |
| SpreadPlans.GrowsToPlan | sim/device.py:81-92 | however a spread begins, it can go on to a plan |
| MessageArrival.FirstSight | pipeline/pipeline.py:60-104 | a device that has not seen the message and has room for its sender delivers any live timely copy and remembers it |
| MessageArrival.SecondSight | pipeline/pipeline.py:79-81 | a device that remembers a message drops every copy and changes nothing |
| MessageArrival.OtherSight | pipeline/pipeline.py:60-104 | packets with other ids leave a device untouched by this one |
| MessageArrival.BuiltIsSendable | sim/packet.py:12-38 | every packet a device builds with hops, copies and at most 321 payload bytes passes all checks that do not depend on time or state |
| Broadcasts.FirstKeeps | sim/device.py:68-92 | a first arrival makes one more device deliver, a hop after the one that sent the copy, and feeds all its neighbours with the next copy |
| Broadcasts.AgainKeeps | sim/device.py:68-73 | a repeated arrival sends nothing and changes nothing of the spread |
| Broadcasts.SpreadsByPlan | sim/device.py:68-92 | once no copy is left, in whatever order they arrived and among any other traffic before and meanwhile, the devices that delivered the message are those of a plan for its reach |
| BroadcastRuns.PlanIsSpread | sim/device.py:68-92 | every plan is how some run from a quiet network goes, with clocks running forward, nothing lost and every check passing |
| BroadcastRuns.SpreadIffPlan | sim/device.py:68-92 | the exact condition: a set of devices is what some run delivers to iff it is the set of a plan |
| BroadcastRuns.ExactRunsIff | sim/device.py:68-92 | from a source on a topology, all runs get exactly as far as the reach iff all plans do |
| BroadcastRuns.ReachIsExactIff | sim/device.py:68-92 | a message gets exactly as far as its reach in all runs on all two-way topologies of n devices iff its reach is at most 1 or at least n-1 |
| BroadcastRuns.LineReach | sim/topologies/line.py:1-11 | on a line of any length, for every order and among any traffic: exactly the devices at distance at most min(T-1, floor(log2 L)) |
| BroadcastRuns.StarReach | sim/topologies/star.py:1-7 | on a star of any size, from hub or leaf, likewise with the star's distance |
| BroadcastRuns.MeshReach | sim/topologies/mesh.py:1-3 | in a mesh of any size everybody, as soon as there is one hop in the message |
| BroadcastRuns.TreeReach | sim/device.py:81-92 | on any tree exactly the levels within reach |
| BroadcastRuns.SmallNetworkReach | sim/device.py:81-92 | on any topology of at most reach + 1 devices, which is at most eight, everybody connected to the source |
| BroadcastRuns.SomeSpread | sim/device.py:64-92 | such runs exist from every source on every topology |
| Devices.Device.HandleLocal | sim/device.py:68-92 | one step of the network: the pipeline's new state, one copy per neighbour while both budgets last, delivered iff the zone is its own or broadcast |
| Devices.Device.Inject | sim/device.py:41-62 | builds, signs and handles an own message; fields that do not fit are an error and change nothing |
| Topologies.BuildLine | sim/topologies/line.py:1-11 | the loop yields, in this order, the neighbours below and above; none for no devices |
| Topologies.LineShape | sim/topologies/line.py:1-11 | neighbours are exactly the adjacent indices, both ways; 2(n-1) directed edges |
| Topologies.BuildStar | sim/topologies/star.py:1-7 | the loop yields the hub's ordered list and one hub per leaf |
| Topologies.StarShape | sim/topologies/star.py:1-7 | symmetric, no loops, no repetition; 2(n-1) directed edges |
| Topologies.MeshShape | sim/topologies/mesh.py:1-3 | symmetric, no loops, no repetition; n(n-1) directed edges |
| Friendship.SharingLedger | friends/state.py:72-138 | in every run from a fresh record sharing implies FRIENDS, and revokes emitted plus one if sharing now equal the switches from off to on |
| Friendship.RevokedForGood | friends/state.py:129-138 | no continuation of a run leaves REVOKED or emits another revoke |
| Friendship.TokensImplySharing | friends/state.py:114-150 | when tokens are recorded only right after an issue effect, stored tokens imply sharing in every run |
| Friendship.RecordNeedsSharing | friends/state.py:141-150 | recording a token keeps that invariant iff sharing is on: the operation does not look |
| Friendship.OnlyByConsent | friends/state.py:93-116 | sharing starts only with the user's own switch among friends; friendship only with the user's accept or an accept of the user's request |
| Friendship.LegalEdges | friends/state.py:80-138 | an event is legal in a state and leads to another iff it is one of twelve edges |
| Friendship.EffectsOfEdges | friends/state.py:80-138 | each effect iff its event: a token is asked for iff location was enabled, a revoke goes out iff what is disabled or unfriended was shared |
| Friendship.EdgeChanges | friends/state.py:80-138 | what each legal event does to sharing and stored tokens, and which change nothing |
| Friendship.SharesIffEnabled | friends/state.py:114-138 | over every run, location is shared iff it was legally enabled and since then neither legally disabled nor unfriended |
| Friendship.TokensAreRecorded | friends/state.py:118-150 | over every run, the stored tokens are those recorded since sharing was last taken back, in order |
| Consent.MutualConsent | friends/state.py:72-138 | with messages lost, repeated, reordered and re-sent but not forged, if either side is a friend or shares, both users themselves requested or accepted earlier |
| Consent.AcceptStemsFromFriend | friends/state.py:96-108 | every accept on the network stems from a moment when its sender was in FRIENDS |
| Consent.FeedMeans | friends/state.py:72-138 | an event moves its own party's record alone, and a message is on the network afterwards iff it was before or is the one that the legal event stands for |
| Consent.MovesMean | friends/state.py:29-41 | which moves are possible, and as which event a message reaches its recipient |
| Consent.MutualIff | friends/state.py:72-138 | the exact condition: a friend's peer is a friend, or awaits an accept that is on the network, in all runs that keep to what is allowed iff neither requests from both sides nor declines nor unfriending are |
| Consent.FriendshipIsMutual | friends/state.py:72-138 | while at most one party asks and nobody declines or unfriends, a friend's peer is a friend, or awaits an accept that is on the network and makes it one |
| Consent.BothAskedOneSided | friends/state.py:84-108 | both asking alone can leave FRIENDS and PENDING |
| Consent.OldDeclineOneSided | friends/state.py:93-112 | with one asker, a repeated decline of an earlier request can leave NONE and FRIENDS |
| Consent.UnfriendedOneSided | friends/state.py:129-136 | unfriending leaves FRIENDS and REVOKED |
| CapabilityTokens.ConsentIsExact | capability/token.py:97-163 | for a key pair that signs as it should, a presented token that is no forgery verifies iff it carries the target's signature and the target issued a grant with this body that allows this grantee this scope now |
| CapabilityTokens.VerifiedTokenWasIssued | capability/token.py:129-163 | a token that verifies and is no forgery carries exactly the body of a grant that the target issued, for this grantee, valid now and for this scope, although the same key signs packets |
| CapabilityTokens.IssuedTokenVerifies | capability/token.py:97-163 | an issued token, whatever nonce was given, verifies for its grantee iff issued_at <= now < expires_at and the scopes share a bit |
| CapabilityTokens.IssuedIsNotForged | capability/token.py:97-126 | what issue returns is the recorded grant's bytes, signed, and so never a forgery |
| CapabilityTokens.IssuesIff | capability/token.py:97-126 | issuing succeeds iff both keys have 32 bytes and scope, issue and expiry fit their fields |
| CapabilityTokens.VerifyRaises | capability/token.py:145-154 | verify raises iff size and version fit and the target's key has the wrong length, or the target is the issuer and the grantee's has |
| CapabilityTokens.SharedRevocationKey | capability/token.py:166-170 | two grants that differ in expiry or scope only are both issued, both verify from the start, differ as bytes and share their revocation key |
| CapabilityTokens.PacketsAreNotTokens | pipeline/message.py:47-53 | nothing signed as a packet can be read as a token body |
| CapabilityTokens.VerifyMeans | capability/token.py:145-163 | each of the conditions that a positive answer implies |
| CapabilityTokens.ParseUndoesBody | capability/token.py:65-94 | parsing a serialised token gives the token |
| CapabilityTokens.BodyUndoesParse | capability/token.py:65-94 | any 98 bytes parse, to a token that serialises to those very bytes |
| CapabilityTokens.TokenOnTheWire | capability/token.py:35-94 | where each field of a token is, byte by byte, numbers with the highest byte first |
| CapabilityTokens.RevocationKeyDetermines | capability/token.py:166-170 | equal revocation keys mean equal bodies iff version, expiry and scope agree too |
| CapabilityTokens.OverlapLaws | capability/token.py:155 | sharing a scope bit is symmetric and reflexive; the location scope overlaps exactly the odd ones |
| CapabilityTokens.OverlapIsSharedFlag | capability/token.py:155 | the test is passed iff some flag, bit k for some k, is set in both scopes |
| Packet.ParseUndoesPack | pipeline/message.py:72-103 | header, payload and signature parse back to every field |
| Packet.PackUndoesParse | pipeline/message.py:72-103 | the fields of a parsed packet serialise to the original bytes |
| Packet.SurvivorBounds | pipeline/size_check.py:4-11 | size check and parsing together leave an honest payload length of at most 321 |
| Packet.RegionDeterminesPacket | pipeline/message.py:47-53 | equal signed regions: packets that differ at most in ttl, spray_L and signature |
| Packet.TimestampWindowSpan | pipeline/timestamp_check.py:9-17 | two clock readings that both accept a timestamp are less than 331 s apart |
| Packet.PackHeader | identity/signing.py:41-45 | packing succeeds iff every number fits its field, and yields 75 bytes |
| Packet.ParsesIff | pipeline/message.py:72-85 | bytes are a packet iff there are at least 139 and byte 73 times 256 plus byte 74 is what is over that; the two errors otherwise |
| Packet.FieldsOnTheWire | pipeline/message.py:33-103 | where each field of a parsed packet is, byte by byte |
| Packet.HeaderOnTheWire | identity/signing.py:41-45 | where each field of a packed header is, byte by byte |
| ByteCodec.U16Order | pipeline/message.py:33 | two-byte numbers are ordered as their bytes are from the first on, and small ones sit in the last byte |
| ByteCodec.U32Order | pipeline/message.py:33 | the same of four bytes |
| ByteCodec.ReadU32Weights | pipeline/message.py:33 | what each of four bytes weighs when read |
| ByteCodec.FieldMeans | pipeline/message.py:33 | a fixed-width field keeps the front of a longer value and pads a shorter one with zeros at the end |
| Signing.ParseUndoesBuild | sim/packet.py:12-38 | building fails iff a field does not fit; what is built parses back to all that was asked for and its signature verifies |
| Signing.IdNamesContent | identity/signing.py:19-21 | two message ids are equal iff sender, timestamp, type and payload are, given a hash that tells what is hashed apart |
| Signing.BuiltCarriesId | identity/signing.py:24-50 | a device builds a packet iff the fields fit, and it carries the id of its content and all that was asked for |
| Signing.RewriteTtlAndSpray | sim/packet.py:41-49 | the in-place rewrite sets two bytes and keeps every other |
| Signing.RewriteAgreesWithOnwardCopy | pipeline/pipeline.py:107-120 | the device's rewrite and the pipeline's onward copy agree on whether and on what to forward |
| Signing.RewriteKeepsSignature | sim/packet.py:41-49 | rewriting the hop bytes changes those two fields of the message only, and the signature check answers the same |
| FriendWire.PayloadRoundTrip | friends/wire.py:69-161 | every request, accept, decline or direct message that encodes decodes to itself, with a readable hint, and fits a payload |
| FriendWire.Encodable | friends/wire.py:47-147 | which messages encode, kind by kind, and for which lengths of the recipient's key |
| FriendWire.PayloadOnTheWire | friends/wire.py:69-147 | the hint is the first eight bytes; then a decline has the request's id and everything else its sealed body |
| FriendWire.DecodesIff | friends/wire.py:78-161 | when each kind decodes: a decline iff 24 bytes; otherwise iff the rest opens and its body has name, keys, flag, token and text within their limits and nothing left over |
| FriendWire.TypeTellsKind | pipeline/message.py:22-29 | the message type is 7, 8, 9 or 13 iff request, accept, decline or direct message |
| FriendWire.IdentityOnTheWire | friends/wire.py:47-53 | an identity packs iff name and keys have their lengths, into length, name, sealing key, signing key |
| FriendWire.AcceptOnTheWire | friends/wire.py:88-100 | identity block, flag byte 0 or 1, token |
| FriendWire.UnpackUndoesPack | friends/wire.py:47-66 | an identity block followed by anything unpacks to the identity and the rest |
| FriendWire.PackUndoesUnpack | friends/wire.py:47-66 | an identity block that unpacks is the packing of what it unpacks to |
| FriendWire.RequestBodyCanonical | friends/wire.py:78-85 | a request body decodes iff it is the encoding of an identity, then of the one it decodes to |
| FriendWire.AcceptBodyRoundTrip | friends/wire.py:88-118 | accepts with and without token survive encoding and decoding |
| FriendWire.AcceptBodyCanonicalIff | friends/wire.py:103-118 | encoding a decoded accept gives the same body iff its flag byte is 0 or 1 |
| FriendWire.FlagTwoDecodes | friends/wire.py:110-115 | a flag of 2 decodes like 1 and is not what the encoder writes |
| FriendWire.DirectMessageCapTight | friends/wire.py:25-26 | the 265-byte cap is exactly what a payload has room for |
| EndToEnd.MessageArrives | friends/wire.py:69-154 | a friend message that can be composed fits a packet and, after any number of hops its budgets allow, passes the size check, parses, verifies and decodes to the original |
| EndToEnd.DifferentMessagesDifferentIds | identity/signing.py:19-50 | two packets built from content carry the same id iff author, time, type and payload agree |
| EndToEnd.LongestMessageFillsPacket | pipeline/message.py:36-37 | a packet with a direct message is 460 bytes long iff its text has 265 |

## Left out

- Cryptography: Ed25519, X25519, ChaCha20-Poly1305 and BLAKE3 are library calls; only the laws listed above are assumed of them.
- The Bloom filter's bits and its 1% error rate: a library and a probability; false hits are arbitrary here.
- Decoding an attestation token (compact JWT, base64url, JSON, event id): the cache starts from a validated key and expiry, `AddToken` from the checks after decoding.
- UTF-8: an encoding with its inverse; a name or text that cannot be encoded (a lone surrogate) is not a value here.
- transport/: sockets, threads and framing; replaced by packets in flight, any of which may arrive next or be lost.
- location/wire.py: fixed-size codecs that would add round trips of the same kind only.
- identity/keygen.py, sim/harness.py, sim/logging_util.py, sim/adversarial_demo.py: files, command line, logging.
- The texts of drop reasons and exceptions: datatypes.
- Aliasing of sender states: `_SenderState` is a value in a map field; that the program mutates one shared object is not captured. The `OrderedDict` is a sequence of pairs, the deque a sequence.
- BroadcastRuns.LineReach: like the other reach theorems it is about runs in which every copy of the message arrives in time, meets no false Bloom hit and no full rate limiter, and no device forgets the message while copies are left; any of these can stop a message anywhere. Other traffic, before and meanwhile, is unrestricted except that it does not use the same message id.
- BroadcastRuns.PlanIsSpread: the run it builds starts from a quiet network; that every plan is also possible in a network in use is not claimed.
- Duplication of packets by the transport: a packet in flight arrives once or is lost.
