# ForgeSworn Link: a verified model

ForgeSworn Link is a NAT-traversing transport: two endpoints meet at a relay
under pair-scoped rendezvous tags, talk QUIC through it, prove direct UDP paths
beside it, and serve content-addressed blobs over the result.  This project
models the state machines beneath QUIC and proves what they keep over every
run.  Ed25519, HKDF, UTF-8 validity and curve-point decompression are function
parameters; where a result needs "verify accepts sign" or "no HKDF collision on
these inputs" it says so as a hypothesis.

`dafny verify dfyconfig.toml` checks the whole project.

## The five groups

**Tag rendezvous** (`Rendezvous`, `RendezvousBook`, `BookRuns`, `BookHistory`,
`BookConcurrency`, `SnapshotFirst`, `RelayRegistry`, `RelayRuns`, `EndToEnd`).  `TagBook` is a
class whose methods are proved against functions on `BookState`.  `BookRuns`
quantifies over every sequence of calls: the send cache never shows, a resolved
tag names its only owner, pairing routes live and die by admission and
generation, an unchanged version means unchanged material.  `BookHistory` says
what each slot holds after any run: the last thing written to it that nothing
has taken away since.  `BookConcurrency`
splits the calls into their lock-protected steps (change, notify, clear the
cache; read three maps one after another; subscribe, snapshot, register) and
proves over every interleaving that no registration is lost.  `RelayRegistry`
and `RelayRuns` do the same for the relay's holders, and `EndToEnd` joins the
two ends: a tag sent from A's cache is registered by B whenever the clocks are
within an hour, is delivered to B's session for as long as that session has not
lost the tag, and is attributed to A there.

**Paths and sessions** (`PathState`, `PathRuns`, `PathSocket`, `SessionStatus`,
`SessionRuns`, `SessionPaths`, with `PathHistory` and `SessionHistory`).  Class `Paths` carries its history as a run, so
every result over runs is a result about the object.  The two history modules
give every part of the state and every decision of the loop as an
if-and-only-if over past steps (`History`).  Direct proofs rest on nonces this side issued to that very
peer within its current session; each session begun is live, was told once that
it was superseded, or ended itself; every status trace is a legal walk; a
probing round never outlives its deadline, outages included.

**Bounded resources** (`TokenBuckets`, `RelayAdmission`, `ReceiveQueue`,
`Selection`).  Grants in any window, invisible pruning, exact admission
counters, and a receive queue that sheds datagrams and never a control frame.

**Codecs** (`Core`, `Base32`, `Frames`, `Cards`).  Round trips in both
directions with their exact conditions, through wrapping accumulators and
wrapping counts.

**Blob transfer** (`BlobHeader`, `BlobServer`, `BlobClient`).  The server's
chunked send composed with the client's exact-length reader.

## Points the code decides

- A direct path need not work both ways.  A pong that proves an address for one
  peer takes over that address in the inbound index even when another peer is
  proved there (`crates/link-endpoint/src/path_socket.rs:599-608`).
  `SharedAddressHappens` is such a run; `TwoWayUnlessStolen` gives the exact
  condition.
- A session that registers a tag may be evicted by its own registration when
  two sessions with larger ids hold the tag already.  `SelfEvictionHappens` is
  such a run; `RegistrantHoldsUnlessOlder` is an if-and-only-if.
- A blob source that produces too much does not always fail at the client: the
  body completes exactly when the source's parts have a boundary at the
  declared size (`CompletesExactly`; `SurplusChunkGoesUnseen` and
  `SurplusInChunkIsSeen` are the two cases).  The server ends such a stream
  without a clean finish either way.
- A pong's source is not compared with the address that was pinged.  A proof is
  of the address the pong came from.
- A registration of more than 256 tags does not decode, so in `BookConcurrency`
  the relay takes a registration only up to that bound.  `RelayRuns` allows
  lists of any length.

## Model

| member | source | states |
|---|---|---|
| `Core.BigEndianRoundTrip` | crates/link-core/src/card.rs:385-387 | a number below 256^width survives its big-endian encoding; used for every fixed-width field |
| `Core.BigEndianDigit` | crates/link-core/src/card.rs:385-387 | byte i of an encoding is the digit of weight 256^(width - 1 - i) |
| `Core.Be16Bytes` | crates/link-core/src/wire.rs:138 | a 16-bit number is its high byte, then its low byte |
| `Rendezvous.InputKeyInjective` | crates/link-core/src/rendezvous.rs:94-142 | the HKDF input key determines the kind of secret and the secret, across all three derivations |
| `Rendezvous.InfoInjective` | crates/link-core/src/rendezvous.rs:144-154 | the HKDF info string determines host and epoch |
| `Rendezvous.InputKeyLayout` | crates/link-core/src/rendezvous.rs:94-142 | the input key slice by slice: literal case bytes 0 to 4, then static before ephemeral, or the one secret |
| `Rendezvous.InfoLayout` | crates/link-core/src/rendezvous.rs:144-154 | the info string slice by slice: host, zero byte, the epoch's eight bytes |
| `Rendezvous.EpochIsTheHour` | crates/link-core/src/rendezvous.rs:75-78 | epoch e is the hour that starts at second 3600 e |
| `Rendezvous.TagDeterminesPreimage` | crates/link-core/src/rendezvous.rs:94-154 | without a collision on the given inputs, equal tags come from equal secret, host and epoch |
| `Rendezvous.SkewIsOneEpoch` | crates/link-core/src/rendezvous.rs:75-78 | clocks at most 3600 s apart have epochs at most one apart, so each is in the other's window |
| `RendezvousBook.TagBook.WithPaired` | crates/link-endpoint/src/rendezvous_book.rs:147-160 | a fresh book has the given material, no routes, an empty cache and version zero |
| `RendezvousBook.TagBook.Bump` | crates/link-endpoint/src/rendezvous_book.rs:162-166 | one more change counted, the cache emptied, the material untouched |
| `RendezvousBook.TagBook.UpsertPeer` | crates/link-endpoint/src/rendezvous_book.rs:171-174 | the whole new state: that peer's material, one change, an empty cache |
| `RendezvousBook.TagBook.RemovePeer` | crates/link-endpoint/src/rendezvous_book.rs:176-179 | the whole new state after dropping a peer, changed or not |
| `RendezvousBook.TagBook.UpsertPairedRoute` | crates/link-endpoint/src/rendezvous_book.rs:184-190 | the whole new state after installing a durable route |
| `RendezvousBook.TagBook.RemovePairedRoute` | crates/link-endpoint/src/rendezvous_book.rs:193-203 | removing an absent durable route changes nothing, not even the version |
| `RendezvousBook.TagBook.RegisterPairingSecret` | crates/link-endpoint/src/rendezvous_book.rs:208-243 | the route is the first drawn one unused anywhere in the book, and it gets exactly that admission; nothing happens while every draw is taken |
| `RendezvousBook.TagBook.RemovePairingRoute` | crates/link-endpoint/src/rendezvous_book.rs:245-262 | the admission goes, a live part stays, an emptied entry is dropped, and the answer says whether anything went |
| `RendezvousBook.TagBook.PromotePairingRoute` | crates/link-endpoint/src/rendezvous_book.rs:267-289 | succeeds exactly when an unexpired admission is there, and then installs the live part beside it |
| `RendezvousBook.TagBook.RemoveLiveRoute` | crates/link-endpoint/src/rendezvous_book.rs:293-317 | removes the live part only for its own generation |
| `RendezvousBook.TagBook.PruneExpired` | crates/link-endpoint/src/rendezvous_book.rs:319-339 | expired admissions go, emptied entries go, the version moves exactly when the material does |
| `RendezvousBook.TagBook.PairingActive` | crates/link-endpoint/src/rendezvous_book.rs:341-348 | answers whether an admission is left after pruning |
| `RendezvousBook.TagBook.Registration` | crates/link-endpoint/src/rendezvous_book.rs:404-441 | a tag is listed if and only if some slot derives it for an epoch of the window, and the list has one tag for each slot and epoch |
| `RendezvousBook.RegistrationMeaning` | crates/link-endpoint/src/rendezvous_book.rs:404-441 | a listing of all slots, in whatever map order, contains exactly the registered tags |
| `RendezvousBook.TagBook.SendTag` | crates/link-endpoint/src/rendezvous_book.rs:445-505 | tag and new state, cache included, for every hit, miss, host change and full cache |
| `RendezvousBook.TagBook.Resolve` | crates/link-endpoint/src/rendezvous_book.rs:510-553 | succeeds if and only if the tag is in the registration of the same moment, and names the owner of a slot that covers it |
| `RendezvousBook.PruneIsNoOp` | crates/link-endpoint/src/rendezvous_book.rs:319-339 | pruning leaves the routes alone if and only if no admission has expired |
| `BookHistory.UpsertMeaning` | crates/link-endpoint/src/rendezvous_book.rs:168-174 | the peer's card slot holds the new material, known peer or not; every other slot keeps its secret; one change, empty cache |
| `BookHistory.RemoveMeaning` | crates/link-endpoint/src/rendezvous_book.rs:176-179 | the peer's card slot is empty, every other slot as before, one change even when there was nothing |
| `BookHistory.UpsertPairedMeaning` | crates/link-endpoint/src/rendezvous_book.rs:184-190 | the durable slot holds the new secret, every other slot as before, one change |
| `BookHistory.RemovePairedMeaning` | crates/link-endpoint/src/rendezvous_book.rs:193-203 | the durable slot is empty; one change if and only if it was not before |
| `BookHistory.RegisterPairingMeaning` | crates/link-endpoint/src/rendezvous_book.rs:208-243 | an unused route gets the admission with its secret and expiry, every other slot as before, one change |
| `BookHistory.RemovePairingMeaning` | crates/link-endpoint/src/rendezvous_book.rs:245-262 | the admission is gone, a live part stays; one change if and only if there was one |
| `BookHistory.PruneMeaning` | crates/link-endpoint/src/rendezvous_book.rs:319-339 | exactly the admissions whose expiry the clock has reached go, every other slot keeps its secret |
| `BookHistory.SendSlotIsFirst` | crates/link-endpoint/src/rendezvous_book.rs:445-505 | a send derives from the first slot held in the order admission, live, paired, card |
| `BookHistory.SendIsRemembered` | crates/link-endpoint/src/rendezvous_book.rs:445-505 | a send changes no material beyond expiry, and its answer is cached for its peer and epoch on that host |
| `BookHistory.SendKeepsCache` | crates/link-endpoint/src/rendezvous_book.rs:445-505 | which other cached tags survive a send: those of the same host, unless an answer had to be added to 4096 tags |
| `BookHistory.CardSlotIsLastUpsert` | crates/link-endpoint/src/rendezvous_book.rs:168-179 | after any run a card slot holds exactly the last material upserted since the last removal |
| `BookHistory.PairedSlotIsLastInstalled` | crates/link-endpoint/src/rendezvous_book.rs:184-203 | after any run a durable slot holds exactly the last secret installed since the last removal |
| `BookHistory.AdmissionIsRegistered` | crates/link-endpoint/src/rendezvous_book.rs:208-339 | after any run an admission is there if and only if it was registered and no drop or expiry ended it since |
| `BookHistory.LiveIsPromoted` | crates/link-endpoint/src/rendezvous_book.rs:267-317 | after any run a live route is there if and only if a promotion installed it and no cleanup or promotion ended it since |
| `BookRuns.SendIsDerived` | crates/link-endpoint/src/rendezvous_book.rs:445-505 | a cached send answers what uncached derivation answers and keeps the cache invariant |
| `BookRuns.CacheRefinesDerivation` | crates/link-endpoint/src/rendezvous_book.rs:162-505 | after any run, for every peer, host and time, a send equals the uncached derivation from current material; the cache stays within its cap |
| `BookRuns.AttributionIsUnique` | crates/link-endpoint/src/rendezvous_book.rs:510-553 | without collisions and with distinct secrets, any answer of resolution is the one owner |
| `BookRuns.PromotionNeedsLiveAdmission` | crates/link-endpoint/src/rendezvous_book.rs:267-289 | both outcomes of a promotion, decided by an admission that is present and unexpired |
| `BookRuns.AdmissionEnds` | crates/link-endpoint/src/rendezvous_book.rs:245-339 | dropping an admission, or any call whose clock reached its expiry, ends it |
| `BookRuns.NoPromotionAfterAdmission` | crates/link-endpoint/src/rendezvous_book.rs:208-339 | on every run, once a route's admission is gone no later promotion of it succeeds, whatever clock it reads |
| `BookRuns.LiveEndsOnlyByItsOwn` | crates/link-endpoint/src/rendezvous_book.rs:267-317 | on every run a live route ends only by cleanup with its own generation or by a later promotion |
| `BookRuns.CleanupIsByGeneration` | crates/link-endpoint/src/rendezvous_book.rs:293-317 | stale cleanup changes nothing at all; matching cleanup removes exactly that slot |
| `BookRuns.NoEmptyRoute` | crates/link-endpoint/src/rendezvous_book.rs:245-339 | no run leaves a route entry with neither part |
| `BookRuns.ChangesCount` | crates/link-endpoint/src/rendezvous_book.rs:162-166 | over any stretch of a run the change count never falls, and standing still means the material stood still |
| `BookRuns.SameVersionSameMaterial` | crates/link-endpoint/src/rendezvous_book.rs:366-369 | equal versions mean equal material, short of 2^64 changes in between |
| `BookConcurrency.NoLostRegistration` | crates/link-endpoint/src/relay_client.rs:794-876 | in every interleaving a waiting pump with nothing unseen has registered exactly the current material, and so has the relay once the wire is empty |
| `BookConcurrency.StaleRegistrationIsAnnounced` | crates/link-endpoint/src/relay_client.rs:823-876 | stale material at a waiting pump leaves a waking or announcing step enabled |
| `BookConcurrency.ConnectOffersBook` | crates/link-endpoint/src/relay_client.rs:794-822 | a fresh connection that nothing interrupts offers the book as it is, with every earlier notification seen |
| `BookConcurrency.WakeCatchesUp` | crates/link-endpoint/src/relay_client.rs:850-876 | a pump woken by a notification or the refresh registers, three steps later, the book as it is then |
| `BookConcurrency.SendAnswersCurrentMaterial` | crates/link-endpoint/src/rendezvous_book.rs:445-505 | a send answered while no mutator is mid-way answers from current material though it read the maps separately |
| `SnapshotFirst.LateSubscriptionMissesChange` | crates/link-endpoint/src/relay_client.rs:794-803 | with snapshot before subscription, from every initial world and for every change, a run ends with a waiting pump that has seen every notification and registered stale material |
| `SnapshotFirst.MissedChangeStays` | crates/link-endpoint/src/relay_client.rs:850-862 | that state lasts until another change, a lost connection or the periodic refresh: no notification wakes the pump |
| `RelayRegistry.TwoLargestUnique` | crates/link-relay/src/lib.rs:365-378 | the two largest ids of a set are determined by the set, whatever order holders were evicted in |
| `RelayRegistry.Registry.Oldest` | crates/link-relay/src/lib.rs:369-373 | the index of the smallest id |
| `RelayRegistry.Registry.Admit` | crates/link-relay/src/lib.rs:360-378 | the kept entries are the two largest ids among the holders and the registrant, and everyone evicted is reported |
| `RelayRegistry.Registry.RegisterTags` | crates/link-relay/src/lib.rs:341-384 | every tag of the old set loses the session, every tag of the new set keeps exactly the two largest of its holders and the registrant, other tags are untouched, and the sessions told are exactly those that lost a tag of the new set, the registrant included |
| `RelayRuns.HoldersAreLiveRegistrants` | crates/link-relay/src/lib.rs:414-450 | in every reachable state a tag has one or two holders, each served and with the tag in its current set |
| `RelayRuns.SlotIsNewestSession` | crates/link-relay/src/lib.rs:418-450 | a node's slot is the last session to register it while that session is served, and empty otherwise |
| `RelayRuns.ExitLeavesNoTrace` | crates/link-relay/src/lib.rs:620-633 | after any exit, in that state and all later ones, the session is nowhere in the registry |
| `RelayRuns.DeliveryIsToTheOtherEnd` | crates/link-relay/src/lib.rs:555-601 | a tag datagram goes only to registrants other than its sender, to at most two, and to at most one when the sender holds the tag |
| `RelayRuns.RegistrantHoldsUnlessOlder` | crates/link-relay/src/lib.rs:365-378 | a registrant holds the tag afterwards if and only if there were not already two holders with larger ids |
| `EndToEnd.SentTagIsRegistered` | crates/link-endpoint/src/rendezvous_book.rs:394-441 | with a shared secret and clocks within 3600 s, a sent tag is in the other side's registered set |
| `EndToEnd.SkewToleranceIsOneEpoch` | crates/link-endpoint/src/rendezvous_book.rs:394-400 | without collisions the shared slot covers the sent tag if and only if the epochs are at most one apart |
| `RelayRuns.HolderStays` | crates/link-relay/src/lib.rs:341-384 | from any state on, a holder holds in every later state if and only if no step makes it lose the tag: its exit, its registration without the tag, or a larger id joining while it is the smaller of two |
| `RelayRuns.SelfEvictionHappens` | crates/link-relay/src/lib.rs:365-378 | a concrete run in which a session is evicted by its own registration |
| `EndToEnd.RegisteredSessionIsTarget` | crates/link-relay/src/lib.rs:341-384 | a session that just registered a tag holds it if and only if it is not outranked |
| `EndToEnd.StaysTarget` | crates/link-relay/src/lib.rs:555-593 | it is a target of every other sender in every later state, if and only if no step makes it lose the tag |
| `EndToEnd.DatagramReachesAndNamesItsPeer` | crates/link-relay/src/lib.rs:555-593 | from A's cache after any run, through the relay in any later state in which B's session has not lost the tag, to B's attribution: the datagram reaches B and names A |
| `RelayAdmission.CountsSum` | crates/link-relay/src/lib.rs:142-148 | per-source counts of a multiset of connections, with no zero entries, add up to its size |
| `RelayAdmission.Admission.Accept` | crates/link-relay/src/lib.rs:192-216 | serves exactly when both caps have room, and then counts exactly that connection |
| `RelayAdmission.Admission.Finish` | crates/link-relay/src/lib.rs:228-235 | takes exactly that connection out of both counters, leaving no zero entry |
| `PathSocket.Paths.SetPeerCandidates` | crates/link-endpoint/src/path_socket.rs:197-207 | keeps the reachable candidates, unmapped, in order, counts one more list, and nothing else changes |
| `PathRuns.UpdatesCountLists` | crates/link-endpoint/src/path_socket.rs:197-219 | over any run a peer's counter is the number of lists it sent, modulo 2^32, across all of its sessions |
| `PathSocket.Paths.DropDirectProof` | crates/link-endpoint/src/path_socket.rs:247-261 | drops proof and index entry for the live session, and does nothing for any other |
| `PathSocket.Paths.BeginPeerSession` | crates/link-endpoint/src/path_socket.rs:269-298 | a new id that is live at once, the peer's path state reset, the old session told once |
| `PathSocket.Paths.EndPeerSession` | crates/link-endpoint/src/path_socket.rs:302-311 | frees the slot only for the session in it |
| `PathSocket.Paths.RegisterProbeKey` | crates/link-endpoint/src/path_socket.rs:323-335 | the peer's key and the index move together, and the key id resolves to that peer and key |
| `PathSocket.Paths.UnregisterProbeKey` | crates/link-endpoint/src/path_socket.rs:339-347 | the key id resolves to nobody afterwards; the peer's key goes only when it is that key |
| `PathSocket.Paths.ProbeTargets` | crates/link-endpoint/src/path_socket.rs:351-364 | the candidate list, then each fresh learnt address not already there, once each and in any map order |
| `PathSocket.Paths.ForgetStaleLearned` | crates/link-endpoint/src/path_socket.rs:366-375 | an address is kept, with its time, if and only if it was heard within ten seconds; nothing else changes |
| `PathSocket.Paths.ForgetStalePending` | crates/link-endpoint/src/path_socket.rs:426-434 | a probe is kept, as it was, if and only if it is younger than the timeout; nothing else changes |
| `PathSocket.Paths.SendPing` | crates/link-endpoint/src/path_socket.rs:445-473 | a nonce becomes outstanding exactly when there is a socket and a key, and the answer says whether the datagram went out |
| `PathSocket.Paths.SendProbes` | crates/link-endpoint/src/path_socket.rs:426-443 | both kinds of stale entries go, then each target is pinged once; a target is a candidate or was heard from within ten seconds in this session |
| `PathRuns.ForgottenProbeNeverProves` | crates/link-endpoint/src/path_socket.rs:426-434 | after a round forgot the stale probes, any later proof consumes a nonce issued since, or less than five seconds before the round |
| `PathRuns.ProbedOnlyWhileHeard` | crates/link-endpoint/src/path_socket.rs:351-375 | in any state of any run, a round probes an unlisted address only within ten seconds of a ping from it |
| `PathSocket.Paths.HandlePing` | crates/link-endpoint/src/path_socket.rs:546-589 | whether it answers, whether it probes back, and the address learnt |
| `PathHistory.ProbesBackExactly` | crates/link-endpoint/src/path_socket.rs:565-588 | over any run a ping is probed back if and only if there is a socket, datagrams do not already go direct to that address, and this session's latest ping to it is not under a second old |
| `PathHistory.AnswersExactly` | crates/link-endpoint/src/path_socket.rs:546-589 | a ping is answered if and only if this session's latest answer to its address is not under a second old |
| `PathHistory.TargetsExactly` | crates/link-endpoint/src/path_socket.rs:351-375 | a round's targets are exactly the list and each unlisted address heard from under ten seconds ago and not proved since |
| `PathHistory.AcceptsExactly` | crates/link-endpoint/src/path_socket.rs:590-598 | a pong is accepted if and only if its nonce was issued to that peer in this session and has not been consumed, forgotten or redrawn since |
| `PathHistory.RoutesExactly` | crates/link-endpoint/src/path_socket.rs:928-973 | datagrams go direct to an address if and only if its pong is the peer's latest proof, was not dropped, and is under 15 s old |
| `PathHistory.AttributesExactly` | crates/link-endpoint/src/path_socket.rs:590-609 | an address is attributed to a peer if and only if that peer proved it last and no peer proved at it lost its proof since |
| `PathHistory.KeyIsLastGiven` | crates/link-endpoint/src/path_socket.rs:323-347 | a peer's probe key is the last one given to it, until that one is forgotten; a new session keeps it |
| `PathHistory.LiveExactly` | crates/link-endpoint/src/path_socket.rs:269-311 | a session is live exactly from its beginning until it ends or another with its peer begins |
| `PathHistory.CandidatesAreLastList` | crates/link-endpoint/src/path_socket.rs:197-207 | a peer's candidates are the reachable addresses of the last list it sent in this session, and none before the first |
| `PathHistory.UsableIsReachable` | crates/link-endpoint/src/path_socket.rs:197-207 | of a list, in order, the unmapped addresses of the socket's own family; none without a socket |
| `PathHistory.EntryStep` | crates/link-endpoint/src/path_socket.rs:197-609 | every action changes the entry of the peer it is about and no other, field by field |
| `PathSocket.Paths.HandlePong` | crates/link-endpoint/src/path_socket.rs:590-609 | an outstanding nonce is consumed and proves the source; any other pong changes nothing |
| `PathRuns.DirectProofsAreSound` | crates/link-endpoint/src/path_socket.rs:540-612 | every proof came from a pong that consumed a nonce issued to that peer within its current session; every indexed address was once so proved for its peer |
| `PathRuns.ProofsNeedIssues` | crates/link-endpoint/src/path_socket.rs:445-473 | no nonce proves more often than it was issued |
| `PathRuns.RelayOnlyIsNeverDirect` | crates/link-endpoint/src/path_socket.rs:197-207 | a relay-only instance never holds a candidate, probe, learnt address or proof, and never routes direct |
| `PathRuns.TwoWayUnlessStolen` | crates/link-endpoint/src/path_socket.rs:590-609 | throughout a run each proved address is accepted from, if and only if no accepted pong came from an address another peer is proved at |
| `PathRuns.SharedAddressHappens` | crates/link-endpoint/src/path_socket.rs:590-609 | a concrete run, each pong under a key id that resolves to its peer, whose last pong ends the two-way property |
| `PathRuns.SharedAddressBreaksTwoWay` | crates/link-endpoint/src/path_socket.rs:247-261 | after the second peer's proof is dropped, the first is still sent to the address and no longer accepted from it |
| `PathRuns.NewestSessionWins` | crates/link-endpoint/src/path_socket.rs:269-311 | each begun session is in exactly one of live, told once, ended; a taken slot is the newest session of its peer |
| `PathRuns.SupersededSessionIsPowerless` | crates/link-endpoint/src/path_socket.rs:247-311 | a superseded session can neither free the slot nor drop the proof |
| `PathRuns.KeyIndexIsCurrent` | crates/link-endpoint/src/path_socket.rs:323-347 | every key id resolves to the peer whose current key it is, and forgetting another key disturbs neither key nor entry |
| `PathRuns.PongsAreRateLimited` | crates/link-endpoint/src/path_socket.rs:546-589 | within a session two answers to one address are at least a second apart |
| `SessionStatus.SessionInner.Start` | crates/link-endpoint/src/session.rs:182-225 | the first two statuses |
| `SessionStatus.SessionInner.Transition` | crates/link-endpoint/src/session.rs:110-150 | an unchanged status is not recorded, and the history is always the first 256 entries of the trace |
| `SessionStatus.SessionInner.Drive` | crates/link-endpoint/src/session.rs:512-767 | the loop over any inputs makes a run of the step relation and stops early only on exit |
| `SessionRuns.UpPass` | crates/link-endpoint/src/session.rs:692-765 | one relay-up pass: at most one move, the round deadline armed exactly in Probing, Direct only on a fresh proof |
| `SessionRuns.TracesAreLegalWalks` | crates/link-endpoint/src/session.rs:541-663 | every trace starts Rendezvous, Relayed; neighbours differ; Failed is final; an outage ends in failure or in exactly the status before it; without direct paths neither Probing nor Direct |
| `SessionRuns.DirectIsFresh` | crates/link-endpoint/src/session.rs:692-763 | a relay-up iteration that ends Direct saw a proof younger than 15 s |
| `SessionRuns.RoundKeepsDeadline` | crates/link-endpoint/src/session.rs:633-653 | a round keeps the deadline it started with, through outages |
| `SessionRuns.RoundEndsByDeadline` | crates/link-endpoint/src/session.rs:692-763 | the first relay-up iteration at or past the deadline leaves Probing |
| `SessionRuns.CooldownBeforeNextRound` | crates/link-endpoint/src/session.rs:692-763 | after a failed round or a lost path no round starts for 30 s unless someone asks |
| `SessionHistory.RoundStartsExactly` | crates/link-endpoint/src/session.rs:692-722 | a relay-up iteration that finds the session Relayed ends Probing if and only if it sees no fresh proof, the peer listed a candidate, and a round is asked for or its time has come: 30 s after the last failure, at once after a later request, or the settle delay |
| `SessionHistory.RoundEndsExactly` | crates/link-endpoint/src/session.rs:724-763 | Probing and Direct end in Direct if and only if a proof is fresh, and in Relayed if and only if the deadline passed or the proof is gone |
| `SessionHistory.ProbesExactly` | crates/link-endpoint/src/session.rs:719-752 | one round of probes on starting, one each 500 ms while Probing, one each 5 s while Direct, a request making them due; none in any other iteration |
| `SessionHistory.DropsExactly` | crates/link-endpoint/src/session.rs:743-761 | the loop drops the peer's proof if and only if it finds itself Direct without a fresh one |
| `SessionHistory.EndsExactly` | crates/link-endpoint/src/session.rs:541-663 | which events and relay statuses end the loop, with which failure, and which report an outage |
| `SessionHistory.RelayIsLatestReport` | crates/link-endpoint/src/session.rs:594-611 | the relay status acted on is the latest one reported, a switched driver before an event |
| `SessionHistory.ReannounceIsDue` | crates/link-endpoint/src/session.rs:581-590 | a re-announcement is due 300 ms after the latest interface change, until an iteration makes it |
| `SessionHistory.MonitorIsHeardUntilItEnds` | crates/link-endpoint/src/session.rs:583-590 | interface changes are listened to exactly until the monitor ends |
| `SessionPaths.StatusFollowsSocket` | crates/link-endpoint/src/session.rs:677-763 | over a run of the loop on a run of the path socket, a relay-up iteration ends Direct if and only if the socket sends the peer's datagrams direct in the state it read |
| `SessionPaths.DirectRestsOnOwnProof` | crates/link-endpoint/src/session.rs:677-763 | an iteration that ends Direct stands on a proof younger than 15 s whose ping and pong both came after the latest session with the peer began |
| `SessionPaths.SupersededLoopDropsNothing` | crates/link-endpoint/src/session.rs:754-761 | the drop asked for by a session changes nothing once a later session with the peer began |
| `TokenBuckets.ByteBudget.Allow` | crates/link-relay/src/lib.rs:660-674 | the call is a step of the bucket, and an unlimited budget always answers yes |
| `TokenBuckets.WindowBound` | crates/link-relay/src/lib.rs:660-674 | over any ordered calls, grants in a window are at most the burst plus what the window earns |
| `TokenBuckets.ByteBudgetBound` | crates/link-relay/src/lib.rs:645-674 | bytes allowed in any window of T seconds are at most rate * (1 + T) |
| `TokenBuckets.IdleSecondRefills` | crates/link-relay/src/lib.rs:660-674 | after an idle second any request up to the rate is granted |
| `TokenBuckets.BudgetIsExact` | crates/link-relay/src/lib.rs:645-674 | a budget grants a call if and only if no window ending with it would exceed the burst plus the window's earnings |
| `TokenBuckets.SourceLimiter.Allow` | crates/link-relay/src/lib.rs:312-329 | the call is a step of the pruning limiter |
| `TokenBuckets.PruningIsInvisible` | crates/link-relay/src/lib.rs:312-329 | every request is answered as if no entry were ever forgotten |
| `TokenBuckets.ReflectorBound` | crates/link-relay/src/lib.rs:312-329 | replies to one source in any window of T seconds are at most rate * (2 + T), pruning included |
| `TokenBuckets.LimiterIsExact` | crates/link-relay/src/lib.rs:312-329 | the reflector answers a request if and only if no window from one of its source's requests to it would hold more than rate * (2 + T) replies, pruning included |
| `TokenBuckets.PruneMeaning` | crates/link-relay/src/lib.rs:312-316 | above 10 000 sources exactly those idle for 60 s are forgotten |
| `ReceiveQueue.PushMeaning` | crates/link-endpoint/src/relay_socket/inbound.rs:31-43 | a push drops only the oldest datagrams and no more than needed, keeps every control frame, and refuses only when no datagram is left to drop |
| `ReceiveQueue.InboundQueue.Enqueue` | crates/link-endpoint/src/relay_socket/inbound.rs:31-43 | the shedding loop computes exactly that push and keeps the byte count exact |
| `ReceiveQueue.InboundQueue.Dequeue` | crates/link-endpoint/src/relay_socket/inbound.rs:45-49 | takes the head and keeps the byte count exact |
| `ReceiveQueue.ControlFramesSurvive` | crates/link-endpoint/src/relay_socket/inbound.rs:28-63 | up to the first refusal of any run, control frames popped and queued are those pushed, in order; everything is an ordered selection; both bounds hold |
| `ReceiveQueue.DatagramsAreDeliveries` | crates/link-endpoint/src/relay_socket/inbound.rs:59-63 | of all encoded frames exactly the two deliveries may be shed |
| `ReceiveQueue.VitalMessagesSurvive` | crates/link-endpoint/src/relay_socket/inbound.rs:28-63 | up to the first refusal of any run every message that is no frame, and every frame that is not a delivery, is popped or queued, in order; at most 1024 messages and 2 MiB of payload |
| `ReceiveQueue.RefusalLeavesNoDelivery` | crates/link-endpoint/src/relay_socket/inbound.rs:31-37 | a push is refused only when no delivery is left to shed |
| `ReceiveQueue.PushTakenExactly` | crates/link-endpoint/src/relay_socket/inbound.rs:31-43 | a push is taken if and only if what may not be shed leaves room for it |
| `Base32.TopBitsSurvive` | crates/link-core/src/id.rs:51-67 | the bits still to be written survive the wrap of the 32-bit accumulator |
| `Base32.ToBase32` | crates/link-core/src/id.rs:51-67 | for every ID the 52 base-32 digits of its value shifted by four bits, most significant first |
| `Base32.FromBase32` | crates/link-core/src/id.rs:69-95 | decodes a text to an ID if and only if it is that ID's encoding |
| `Base32.TextInjective` | crates/link-core/src/id.rs:51-95 | no two of the 2^256 IDs share a text |
| `Base32.LetterIsAlphabet` | crates/link-core/src/id.rs:25 | a digit's letter is its place in the lowercase alphabet of section 6 of RFC 4648 |
| `Base32.TextCharacter` | crates/link-core/src/id.rs:51-67 | character i of an ID's text is the alphabet at (16 * value / 32^(51 - i)) mod 32 |
| `Frames.EncodeFrame` | crates/link-core/src/wire.rs:119-153 | the appending encoder computes the frame layout, tag loop included |
| `Frames.RoundTrip` | crates/link-core/src/wire.rs:119-261 | decoding an encoded frame gives the frame when a datagram is 1 to 1350 bytes and a tag list at most 256 long, and nothing otherwise, even where the count wraps |
| `Frames.Canonical` | crates/link-core/src/wire.rs:155-205 | whatever decodes re-encodes to itself and is within the bounds |
| `Frames.TagsRoundTrip` | crates/link-core/src/wire.rs:135-143 | a tag list survives exactly when it has at most 256 tags |
| `Frames.RegisterLayout` | crates/link-core/src/wire.rs:135-143 | a registration byte by byte: kind, big-endian count, tag i at 3 + 16 i |
| `Frames.RoutedLayout` | crates/link-core/src/wire.rs:209-249 | a routed frame slice by slice: literal kind, address, datagram |
| `Frames.FixedLayout` | crates/link-core/src/wire.rs:119-151 | every other frame: literal kind and its fields in order |
| `Cards.WriteBody` | crates/link-core/src/card.rs:373-395 | the appended body is the field layout followed by each hint |
| `Cards.Sign` | crates/link-core/src/card.rs:174-196 | the card's bytes are its body and the signature of the domain-prefixed body |
| `Cards.ReadHints` | crates/link-core/src/card.rs:258-312 | the moving-offset loop reads the region as the grammar does |
| `Cards.ParseFinds` | crates/link-core/src/card.rs:260-312 | a region that spells admissible hints parses to those hints |
| `Cards.ParseIsRight` | crates/link-core/src/card.rs:260-312 | what parses spells the region, with admissible hints and the declared count |
| `Cards.EncodeBodyInjective` | crates/link-core/src/card.rs:373-395 | within the size limit a body determines every field, wrapping count and lengths included |
| `Cards.Verify` | crates/link-core/src/card.rs:229-366 | rejected by the first of the nine rules that fails; accepted only when all hold, with fields that encode to the signed bytes |
| `Cards.VerdictIsUnique` | crates/link-core/src/card.rs:229-366 | bytes and context determine the verdict |
| `Cards.SignedCardVerdict` | crates/link-core/src/card.rs:174-366 | a signed card is accepted, as itself, exactly when its fields are in bounds and valid in the context |
| `Cards.AcceptableMeans` | crates/link-core/src/card.rs:229-354 | acceptability in numbers: 4096 bytes, 16 hints, one ephemeral, 300 s of skew, seven days, a newer serial, the expected peer |
| `Cards.AcceptedCard` | crates/link-core/src/card.rs:229-366 | what an accepted card satisfies, in the same numbers, with its signature over the domain and its body |
| `Cards.HintRules` | crates/link-core/src/card.rs:276-301 | which hints rule 3 admits, by literal kind and length |
| `Cards.HintLayout` | crates/link-core/src/card.rs:389-393 | a hint byte by byte: kind, big-endian length, value |
| `Cards.DomainText` | crates/link-core/src/card.rs:7-8 | the signing domain spelled out |
| `BlobHeader.HeaderRoundTrip` | crates/link-blossom/src/wire.rs:154-222 | an encoded header decodes to its normal form and ends where it was written to end, whatever follows |
| `BlobHeader.HeaderCanonical` | crates/link-blossom/src/wire.rs:184-222 | a decoded header is normal and re-encodes to the bytes it used |
| `BlobHeader.CutHeaderIsShort` | crates/link-blossom/src/wire.rs:184-222 | a proper prefix of a header never decodes |
| `BlobHeader.HeaderLayout` | crates/link-blossom/src/wire.rs:154-181 | a header slice by slice: literal status, size, length, text |
| `BlobHeader.DecodesExactly` | crates/link-blossom/src/wire.rs:184-222 | a header decodes from exactly the byte strings that begin with an encoding of one |
| `BlobHeader.ShortIsShort` | crates/link-blossom/src/wire.rs:184-209 | a short buffer is reported with its length and the length it must reach |
| `BlobHeader.ReadResponse` | crates/link-blossom/src/client.rs:252-294 | reading off the stream gives the header that decodes from its front and takes exactly its bytes |
| `BlobServer.WrittenReaches` | crates/link-blossom/src/server.rs:128-139 | the wire carries the declared size if and only if some leading parts add up to it |
| `BlobServer.WrittenIsMaximal` | crates/link-blossom/src/server.rs:131-139 | what is written is a number of leading parts, and it stops only at the end or before a part that does not fit |
| `BlobServer.PartsAreFull` | crates/link-blossom/src/server.rs:132 | every part of a chunk but its last is exactly 64 KiB |
| `BlobServer.SendChunk` | crates/link-blossom/src/server.rs:132-138 | a chunk goes out in parts of at most 64 KiB up to the first that does not fit |
| `BlobServer.SendBlob` | crates/link-blossom/src/server.rs:120-146 | the bytes on the wire for any source, and a clean finish exactly when it produced the declared size without a fault |
| `BlobClient.BlobBody.Poll` | crates/link-blossom/src/client.rs:341-368 | one turn of the body stream |
| `BlobClient.DrainsWhole` | crates/link-blossom/src/client.rs:341-368 | with enough bytes the body ends without an error, in pieces of at most 64 KiB that are exactly the declared size |
| `BlobClient.DrainsShort` | crates/link-blossom/src/client.rs:341-368 | with too few, whole 64 KiB pieces, then exactly one error, then the end |
| `BlobClient.BodyIsCutInParts` | crates/link-blossom/src/client.rs:341-368 | a complete body is the declared bytes in 64 KiB pieces, whatever parts the server sent |
| `BlobClient.TransferIsExact` | crates/link-blossom/src/client.rs:322-369 | for any source and any delivered prefix: the sent header up to normal form, and the first `size` bytes of the source or a shorter prefix and one error |
| `BlobClient.CompletesExactly` | crates/link-blossom/src/server.rs:128-143 | with full delivery the client completes if and only if the source's parts have a boundary at the declared size |
| `BlobClient.SurplusChunkGoesUnseen` | crates/link-blossom/src/server.rs:128-143 | surplus in a chunk of its own: no clean finish at the server, a whole blob at the client |
| `BlobClient.SurplusInChunkIsSeen` | crates/link-blossom/src/server.rs:132-138 | the same bytes in one chunk give the client one error and no data |
| `BlobClient.SourceDecides` | crates/link-blossom/src/client.rs:322-369 | an exact source is received whole and a short one never is |

## Left out

- QUIC, TLS, WebSocket and TCP internals and task scheduling: they appear only as step choices and ordered byte streams.
- Ed25519, HMAC, HKDF, SHA-256 and secp256k1: function parameters, with hypotheses where a result needs them.
- Opening and sealing of probe packets: a ping or pong step names the peer that the probe key resolves to.
- The relay client's driver: dialling, back-off, failover between relays and its status counters.
- Wall-clock epoch refresh of a registration: the tick is periodic, so the claims about registrations are about material.
- The control-message and reflector codecs: fixed-size records like the frames that are modelled.
- URL and host parsing of relay specifications: it rests on address printers that are not part of this model.
- link-engine, link-ffi, link-web, link-websocket and the command-line tools: adapters around the modelled parts.
- Floating-point rounding in the token buckets: they compute over `real`.
- The detail text of a card rejection: the verdict carries the rule number.
- Blob requests and the blob store: one fixed-size record and a lookup.
- PathRuns.PongsAreRateLimited: says nothing across a new session, which resets the peer's probe times.
- BookRuns.SameVersionSameMaterial: the version is a 64-bit counter that wraps, so equality after exactly 2^64 changes says nothing.
- RelayRegistry.Registry.RegisterTags: an eviction notice is recorded when it is offered; the source may fail to deliver it.
- BlobServer.SendBlob: counts sent bytes without a bound, which differs from the source's 64-bit count only past 2^64 - 65536 bytes.
