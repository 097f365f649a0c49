# Verified core of p2p_file

A Dafny model of the hand-written state machines, codecs and loops of `p2p_file`, with
proofs of what they promise. `dafny verify dfyconfig.toml` checks everything.

## What is modelled

| area | files | source |
|---|---|---|
| relay admission: tickets, challenges, sessions, source index | `RelayModel`, `RelayCleanup`, `RelayInvariants`, `RelayForwarding`, `RelayQuotas`, `RelayProvenance`, `RelayProgress`, `RelayServer` | `src/relay/server.rs` |
| signaling registry and connection handlers | `SignalModel`, `SignalInvariants`, `SignalWaits`, `SignalDebts`, `SignalPairing`, `SignalRelay`, `SignalProgress`, `SignalRegistry` | `src/discovery/signal.rs` |
| fixed-window limiters | `RateLimit`, `RateEviction`, `RateWindow`, `RateMisses` | `src/discovery/signal.rs` |
| STUN codec and its CRC-32 fingerprint | `Crc32`, `StunCodec`, `StunRoundTrip`, `StunFingerprint`, `StunFraming`, `StunWire`, `StunVectors`, `StunMethods` | `src/nat/stun.rs` |
| short-id allocator | `ShortIds` | `src/discovery/short_id.rs` |
| NAT mapping inference | `NatMapping` | `src/nat/classify.rs` |
| candidate budgeting | `Candidates` | `src/net/mod.rs` |
| file manifests | `Manifests`, `LittleEndian` | `src/protocol/manifest.rs` |
| length-prefixed frames | `Frames`, `LittleEndian` | `src/protocol/frame.rs` |

`Common` and `Net` hold the vocabulary they share.

Where the source changes things step by step the model has a class or a method with loops,
proved against functions on values; the theorems are about those functions and about whole
runs of them.

**Relay.** A run is any sequence of ticket issues, control packets, datagrams and maintenance
ticks. Ticks can be added or removed anywhere without changing a reply; every quota holds in
every state although none is stored; a route leads to one other socket and straight back; every
bound socket goes back to one Register that proved possession of a key, against a challenge this
server issued to that socket, under a ticket live at that moment; a session that has outlived its
idle timeout stays silent whatever its sockets send, until one of them is bound anew. And the relay
does its work: a verified Register whose named peer waits is bound to the lowest waiting arm, both
sockets are told once, and datagrams go between them. `RelayProgress` says of every packet what it
leaves and what it answers, on the tables and in numbers alone.

**Signaling.** A run is any interleaving of connection handlers, each step one critical section
of the registry lock, so that the waiters taken at registration are paired in later, separate
steps. The two wait indexes stay inverse, nothing outlives its connection, no wait is lost and
every pairing owed is attempted or dropped with its connection, tokens reach both outboxes or
neither and in one order, and no relay ticket and no bound relay socket exists whose token was not
queued to both nodes. An allowed lookup of an online node pairs the two, of an offline one waits
within both caps; `SignalProgress` says of every handler step what it changes and what it leaves.

**STUN.** Encoding then decoding gives the message back exactly when its attributes are ones the
wire format can carry, whatever follows it. The fingerprint detects every alteration within four
consecutive bytes of what it covers other than length fields, and of its own length and value. It
does not protect the header's length, the attributes' lengths and its own kind; for each of these
it is stated exactly which alterations decode and to what. Every attribute, header and fingerprint
is also given byte by byte in the standard's own numbers, and the sample response of RFC 5769
section 2.2 decodes to what that section says it holds.

**Limits.** With the clock read anew for every test, an address is admitted at most twice its limit
in any interval of one window length, and so is a connection; both bounds are reached. A short-id
lookup is granted exactly when, since its window began, fewer were granted than the limit and fewer
resolved nothing than the miss limit, so that a connection guesses wrongly at most twice the miss
limit in any interval of one window length.

### Choices

- Clock readings, random numbers, database faults and what the network answers are inputs.
  Issuing a ticket reads the clock twice and so has two inputs. A limiter call has one for its
  arrival, one for each bucket it may evict, and one each for insertion, expiry test and reset.
- Time in the relay is nondecreasing only where a theorem says so (`Timely`). A datagram's clock
  is read before the lock is taken, so a tick may come with a later reading first:
  `TickShowsOnlyToStaleReadings` says exactly when that shows.
- Ed25519 and BLAKE3 are function parameters; nothing is assumed but that they are functions.
- Connection ids come from a counter that is taken not to wrap. The source lets it wrap.
- A push in an outbox carries the connection its candidates were taken from. This is not sent; it
  lets the model speak of pairs of connections.
- One pairing attempt (reserve, issue, push, push) is one step: it runs under the registry lock
  with both slots reserved.
- `read_exact` passes interruptions on, as tokio's does; the header loop retries them.
- The two bucket tables of the limiters have the same shape and cap and are one class.

### Where the documentation and the code differ

- A comment in `verify_chunk` says the index is known to be in bounds. It is, for manifests that
  passed validation; `UnvalidatedMayStop` shows one that did not and stops the program, and
  `SafeExactlyWhen` gives the exact condition.
- The fingerprint is described as enforced whenever it is there. Whether it is there is up to fields
  it does not protect: `TruncationSlipsThrough` cuts a message after any attribute by its length field
  alone, `RenamingSlipsThrough` turns the fingerprint into a stray attribute, and
  `SwallowingSlipsThrough` hides it in an attribute's value. `HeaderLengthExactly`,
  `RenamedFingerprint` and `AttributeLengthExactly` say exactly which such alterations decode.
- The limiter is described by its limit per window. Over an arbitrary interval of that length the
  bound is twice the limit, and one less if every call reads a single instant; `BoundsAreReached`
  shows both are reached.
- Evicting expired buckets is not invisible in every run: a new window starts at the insertion if the
  old bucket was evicted and at the reset if it was found expired. `EvictionMayShow` is a run where
  this shows, `EvictionStep` says exactly when one call leaves different windows, and
  `EvictionShowsExactly` that a run can be told apart if and only if it has such a call.

## Model

| member | source | states |
|---|---|---|
| RelayCleanup.TicksAreInvisible | src/relay/server.rs:140-253 | two runs with the same requests at the same nondecreasing times give the same replies, whatever maintenance ticks each has |
| RelayCleanup.Absorbs | src/relay/server.rs:236-253 | a later cleanup after an earlier one equals the later one alone |
| RelayCleanup.ForwardSeesThroughCleanup | src/relay/server.rs:210-228 | cleaning up before a datagram changes neither its route nor, to any later observer, the state it leaves |
| RelayCleanup.StepAlike | src/relay/server.rs:140-253 | from two states no cleanup can tell apart, every event gives one reply and again two such states |
| RelayCleanup.TickShowsOnlyToStaleReadings | src/relay/server.rs:210-234 | with clock readings in any order, a tick changes a datagram's route if and only if the datagram's reading finds the session fresh and the tick's found it idle |
| RelayInvariants.Reachable | src/relay/server.rs:121-437 | in every state of every run the source index and the bound sides are inverse, arms are numbered below four and carry their token, both sides name each other, live tickets agree with the sessions they opened, and challenges belong to unbound sources |
| RelayInvariants.RegisterKeeps | src/relay/server.rs:333-391 | a Register preserves that invariant |
| RelayInvariants.HelloShape | src/relay/server.rs:269-332 | a Hello changes nothing or records one fresh challenge, for a source neither bound nor pending, within both pending caps and with an arm to go to |
| RelayForwarding.RouteIsMutual | src/relay/server.rs:210-228 | a route leads to another socket, which at that instant leads back, before and after; the two were bound under one token and name each other |
| RelayForwarding.DestinationIsStable | src/relay/server.rs:210-253 | a ready session keeps its two sockets until a cleanup finds it idle |
| RelayForwarding.ExpiredStaysSilent | src/relay/server.rs:210-253 | once a socket's session has outlived its idle timeout, no datagram from it is routed again, whatever it sends meanwhile and refused Registers included, until an event binds it anew |
| RelayQuotas.QuotasAlwaysHold | src/relay/server.rs:145-174 | in every state of every run: sessions, tickets and challenges in total, tickets and sessions per unordered pair and per node, challenges per address, and four arms per token |
| RelayQuotas.SecondBindIsFree | src/relay/server.rs:392-437 | binding the second side of a half-bound arm raises no session count |
| RelayQuotas.RegisterWithinQuota | src/relay/server.rs:333-437 | a Register keeps every quota, half-bound arms counted once |
| RelayProvenance.BoundSocketsWereAdmitted | src/relay/server.rs:269-391 | every bound socket has one challenge event and one later Register event, verified against that challenge from that socket under a ticket then live, and no other event bound it since the challenge |
| RelayProvenance.PendingOrigin | src/relay/server.rs:269-332 | every pending challenge was issued by an earlier Hello from its source, which has not been bound since |
| RelayProvenance.ChallengesBindOnce | src/relay/server.rs:333-391 | between two binds of one socket a fresh challenge was issued, and the second bind used it |
| RelayProvenance.LiveTokensAreNotReissued | src/relay/server.rs:140-184 | while a session of a token lives, issuing that token fails, and any ticket it still has joins that session's two nodes |
| RelayProgress.RegisterJoinsThePeer | src/relay/server.rs:333-457 | in every run, when the named peer waits on an arm of the token, a verified Register is bound to the other side of the lowest such arm; the session is then ready, the replies are one Ready packet to each socket with its own token, node and client nonce, and while the session is fresh a datagram from either goes to the other; nothing else changes |
| RelayProgress.RegisterBindsAlone | src/relay/server.rs:333-437 | with no such peer a verified Register is bound to the first free slot if and only if the session quotas, in numbers, have room and one of the four slots is free; it gets no reply and its challenge is spent either way |
| RelayProgress.UnverifiedIsIgnored | src/relay/server.rs:333-391 | a Register that is not the signed answer, within five seconds and from the same socket, to that socket's challenge under a live ticket changes nothing but the sweep |
| RelayProgress.NewHelloIsChallenged | src/relay/server.rs:269-332 | a ticketed Hello from a new socket is challenged exactly when both pending caps have room and it has an arm to go to; the challenge carries its client nonce, the server's nonce and its address |
| RelayProgress.ChallengedHelloIsRepeated | src/relay/server.rs:269-332 | a socket with a pending challenge gets that challenge again for the same Hello and nothing for another |
| RelayProgress.BoundHelloIsAnswered | src/relay/server.rs:269-332 | a bound socket that repeats its Hello gets its own Ready packet if its session is ready, and nothing otherwise |
| RelayProgress.UnticketedIsIgnored | src/relay/server.rs:254-291 | a Hello without a live ticket, or from an unusable address or the other family, changes nothing but the sweep |
| RelayProgress.OtherPacketsAreIgnored | src/relay/server.rs:189-209 | so do the server's own packets sent to it |
| RelayProgress.IssuesExactly | src/relay/server.rs:140-184 | a ticket is issued if and only if its two nodes differ, its token has neither ticket nor session, and the ticket counts in total, per pair and per node have room, in numbers; it expires the configured time after the second reading |
| RelayProgress.SweptExactly | src/relay/server.rs:235-253 | a sweep keeps exactly the unexpired tickets, the challenges under five seconds old with a ticket, the sessions not idle that are ready or have a ticket, and the sources of those sessions |
| RelayProgress.RoutesExactly | src/relay/server.rs:210-228 | a datagram goes to an address if and only if that is the other side of its source's ready and fresh session, which it refreshes; nothing else changes |
| RelayProgress.QuotasInNumbers | src/relay/server.rs:18-23 | the quotas of every state of every run as set sizes against 16, 64, 4 and the configured limits |
| RelayServer.Admission.Create | src/relay/server.rs:128-138 | a server exactly for a ticket time up to 300 s, an idle time up to 3600 s, 1 to 4096 sessions and 1 to 128 challenges per address, with four empty tables and the invariants |
| RelayServer.Admission.Cleanup | src/relay/server.rs:235-253 | the tables become what the cleanup function gives; invariants and quotas kept |
| RelayServer.Admission.Issue | src/relay/server.rs:140-184 | result and tables as the issue function gives; invariants and quotas kept |
| RelayServer.Admission.AvailableArm | src/relay/server.rs:392-437 | the lowest waiting arm of the named peer, else the first free slot of four when every session quota has room, else none; what follows for the tables and replies is in `RegisterJoinsThePeer` and `RegisterBindsAlone` |
| RelayServer.Admission.Hello | src/relay/server.rs:269-332 | replies and tables as the hello function gives; invariants and quotas kept; only challenges change |
| RelayServer.Admission.Register | src/relay/server.rs:333-391 | replies and tables as the register function gives; invariants and quotas kept; no ticket changes |
| RelayServer.Admission.Control | src/relay/server.rs:189-209 | cleanup, then hello or register; other packets are only cleaned up after |
| RelayServer.Admission.Forward | src/relay/server.rs:210-228 | the other side's socket, activity refreshed, exactly for a fresh ready session of the right family |
| SignalInvariants.EveryInterleaving | src/discovery/signal.rs:613-742 | in every state of every interleaving: the wait indexes are inverse without empty sets, nobody waits for an online node or itself, every record and wait belongs to an open connection that proved that identity, online, waiter, per-connection and outbox caps hold |
| SignalInvariants.EnrollKeeps | src/discovery/signal.rs:1152-1179 | putting a record in and taking its waiters out in one step preserves the registry invariant |
| SignalInvariants.UnregisterKeeps | src/discovery/signal.rs:718-742 | so does removing a connection |
| SignalWaits.WaitsCountedTwice | src/discovery/signal.rs:603-610 | the sizes of all waiter sets add up to the sizes of all pending sets, and to at most the cap |
| SignalWaits.SupersededCloseIsHarmless | src/discovery/signal.rs:718-742 | closing a connection that a newer one replaced leaves every record and every wait but its own |
| SignalWaits.LastCloseEmptiesTheTables | src/discovery/signal.rs:1386-1397 | with no connection open all three tables are empty |
| SignalWaits.NoWaitIsLost | src/discovery/signal.rs:1152-1185 | a wait that is gone was ended by its own connection closing or by its target coming online, whose handler then owes the requester a pairing if its connection is still the current one |
| SignalDebts.DebtsArePaid | src/discovery/signal.rs:1204-1213 | a pairing owed leaves the list only when the handler closes or attempts it, and the attempt queues one token on both current connections, or finds a node offline, or kicks a connection without room |
| SignalDebts.WaitsAreAnswered | src/discovery/signal.rs:1152-1213 | both joined: the whole life of a wait, from its entry to the attempt |
| SignalPairing.PairingIsAllOrNothing | src/discovery/signal.rs:655-715 | an attempt queues one message with the same token on both connections, or nothing anywhere and no ticket; no other outbox changes |
| SignalPairing.TokensInOneOrder | src/discovery/signal.rs:655-715 | in every interleaving any two connections have the tokens of their pairings queued in one order |
| SignalPairing.TicketsWereAnnounced | src/discovery/signal.rs:655-715 | every relay ticket's token was queued to both nodes it names |
| SignalPairing.RelayOnlyDropsTickets | src/relay/server.rs:189-253 | the relay's own traffic never adds or changes a ticket |
| SignalRelay.RelayMoves | src/discovery/signal.rs:689-694 | inside a hub the relay only takes its own steps |
| SignalRelay.BoundSocketsWereIntroduced | src/relay/server.rs:333-391 | in every interleaving the token of every socket bound at the relay was queued to both the node it belongs to and the peer it reaches |
| SignalProgress.LookupPairs | src/discovery/signal.rs:1253-1354 | in every run, an allowed lookup by the current connection for another online node queues one token on both connections with the other's candidates and asks the relay for a ticket, or, if one of the queues is full or gone, tells that connection to close; nothing else changes |
| SignalProgress.LookupWaits | src/discovery/signal.rs:1311-1354 | for an offline node the wait is there afterwards if and only if it was before or both caps had room; no other wait and nothing else changes |
| SignalProgress.LookupRefused | src/discovery/signal.rs:1253-1310 | a lookup the limiters refuse, or of oneself, changes nothing; one from a replaced connection ends its handler |
| SignalProgress.PairNextPairs | src/discovery/signal.rs:1210-1213 | the first requester owed leaves the list and is paired with the new node in that same way, or not at all if one of them has gone |
| SignalProgress.AdmitsExactly | src/discovery/signal.rs:1152-1204 | a registration is refused if and only if its node is new and the table full; otherwise the record with its candidates is in, every wait for it and no other is gone, and the handler owes a pairing to exactly the requesters still on their waiting connection and an eviction to the connection replaced |
| SignalProgress.EvictsExactly | src/discovery/signal.rs:1204-1208 | the replaced connection is told to close, once |
| SignalProgress.ClosesExactly | src/discovery/signal.rs:718-742 | a closing connection's own record and waits go, and no others |
| SignalProgress.SendsExactly | src/discovery/signal.rs:913-915 | a message is queued if the queue has room; otherwise the handler leaves |
| SignalRegistry.OnlineTable.constructor | src/discovery/signal.rs:455-468 | starts empty |
| SignalRegistry.OnlineTable.WaiterEntries | src/discovery/signal.rs:603-605 | the number of waits, added up set by set |
| SignalRegistry.OnlineTable.PendingCount | src/discovery/signal.rs:608-610 | the number of targets whose waiter sets hold this connection, read off the other index |
| SignalRegistry.OnlineTable.AddWaiter | src/discovery/signal.rs:613-622 | the wait enters both indexes, true exactly when it was new; the invariant survives for an offline target other than oneself |
| SignalRegistry.OnlineTable.TakeWaitersFor | src/discovery/signal.rs:630-652 | every requester still on its waiting connection, once each and never the target; all waits for the target leave both indexes and no empty set stays |
| SignalRegistry.OnlineTable.Enroll | src/discovery/signal.rs:1152-1179 | refused exactly when new and full; otherwise the record is in, its waiters are out and listed, and the replaced connection is named |
| SignalRegistry.OnlineTable.Unregister | src/discovery/signal.rs:718-742 | the record goes only if it is this connection's, this connection's waits go, empty sets go |
| SignalRegistry.OnlineTable.Forget | src/discovery/signal.rs:729-741 | one key leaves the named sets and only sets emptied by that are dropped |
| SignalRegistry.OnlineTable.TryPair | src/discovery/signal.rs:655-715 | outboxes, kicked connections and relay as the pairing function gives |
| SignalRegistry.OnlineTable.Lookup | src/discovery/signal.rs:1253-1354 | a superseded connection changes nothing; otherwise pair, or wait within both caps, as `LookupPairs` and `LookupWaits` say of every run |
| RateLimit.AtMostTwiceTheLimit | src/discovery/signal.rs:577-601 | for any readings taken in order, in any half-open interval of one window length an address is admitted at most twice the limit |
| RateLimit.UnderTwiceTheLimit | src/discovery/signal.rs:577-601 | at most twice the limit less one where every call reads a single instant (never, for limit zero) |
| RateLimit.BoundsAreReached | src/discovery/signal.rs:470-503 | for every positive limit there are runs that reach both bounds |
| RateLimit.TableStaysSmall | src/discovery/signal.rs:577-601 | a bucket table never has more than 1024 entries |
| RateLimit.EvictionIsInvisible | src/discovery/signal.rs:577-589 | while the cap turns nobody away and no call replaces an evicted bucket at two different instants, evicting answers as keeping all buckets for ever |
| RateLimit.EvictionStep | src/discovery/signal.rs:577-589 | one call answers alike either way; the windows it leaves are equal if and only if it replaces no evicted bucket, or its insertion and reset are one instant, or the new window ends before its test |
| RateLimit.EvictionMayShow | src/discovery/signal.rs:577-589 | a run of three calls in which evicting admits what keeping refuses |
| RateEviction.EvictionShowsExactly | src/discovery/signal.rs:577-601 | for a run the cap never refuses: no part of it followed by instant requests within the cap is answered otherwise than by keeping every bucket, if and only if the limit is zero or no call replaced an evicted bucket at two different instants |
| RateWindow.ConnectionGetsAtMostTwice | src/discovery/signal.rs:493-502 | in any half-open interval of one window length a connection's own window grants at most twice its limit |
| RateWindow.ConnectionReachesTwice | src/discovery/signal.rs:493-502 | for every limit there is a run that reaches that bound |
| RateMisses.GrantedExactly | src/discovery/signal.rs:1231-1248 | over every run of a connection's short-id lookups: one is granted if and only if, since the window it falls in began, fewer than the limit were granted and fewer than the miss limit resolved nothing, refused ones counted, both read off the history; it resolves if and only if it is granted and address limiter, range and store agree |
| RateMisses.RefusedUntilTheEnd | src/discovery/signal.rs:493-502 | once refused, a connection is refused until a lookup finds its window over |
| RateMisses.GuessesAreFew | src/discovery/signal.rs:1231-1248 | in any half-open interval of one window length a connection has at most twice the miss limit of lookups that are let through and find nothing |
| RateMisses.LookupShort | src/discovery/signal.rs:1231-1248 | the window and both answers as the lookup function gives, misses saturating at 32 bits |
| RateLimit.LookupWindow.TakeInWindow | src/discovery/signal.rs:493-502 | reset at a second reading if the first finds the window over, refuse at either cap, else count one; `GrantedExactly` says what this grants over a run |
| RateLimit.BucketTable.TakeLookup | src/discovery/signal.rs:577-589 | evict bucket by bucket, refuse a new address when full, else one request against its bucket, each with its own reading |
| Crc32.Crc32 | src/nat/stun.rs:304-315 | the two nested loops with the branch-free mask compute the checksum |
| Crc32.StandardCheckValue | src/nat/stun.rs:304-315 | the checksum of the digits 1 to 9 is 0xCBF43926 |
| Crc32.FoldInjective | src/nat/stun.rs:304-315 | feeding the same bytes to two different states leaves them different |
| Crc32.BurstChangesChecksum | src/nat/stun.rs:304-315 | two strings of equal length that differ only within four consecutive bytes have different checksums |
| StunRoundTrip.RoundTrip | src/nat/stun.rs:202-298 | for every message whose body fits 16 bits and every tail: decoding the encoding gives the message without hand-made fingerprints if and only if its IPv6 addresses have no scope or flow and its unknown kinds are unknown |
| StunRoundTrip.AttributeDecodes | src/nat/stun.rs:357-598 | one attribute survives encoding and decoding if and only if it is plain in that sense |
| StunRoundTrip.AttributesWalk | src/nat/stun.rs:320-355 | the fingerprint walk passes over encoded attributes to whatever follows them |
| StunRoundTrip.WireValues | src/nat/stun.rs:195-214 | the four binding type words, and the masked address of the standard's example |
| StunRoundTrip.TypeParses | src/nat/stun.rs:202-214 | the interleaved type word gives back method and class, top bits clear |
| StunCodec.LossyKeepsText | src/nat/stun.rs:520-522 | lossy decoding leaves well-formed UTF-8 as it is |
| StunCodec.LossyIsText | src/nat/stun.rs:520-522 | lossy decoding of any bytes gives well-formed UTF-8 |
| StunFingerprint.AlterationIsDetected | src/nat/stun.rs:227-355 | altering an encoded message within any four consecutive bytes before the fingerprint, other than length fields, makes decoding fail, whatever follows |
| StunFingerprint.FingerprintIsGuarded | src/nat/stun.rs:320-355 | altering the fingerprint attribute's own length or value makes decoding fail |
| StunFingerprint.AlteredWalk | src/nat/stun.rs:320-355 | over attributes altered elsewhere than in length fields the walk faults or arrives where it would have |
| StunFraming.HeaderLengthExactly | src/nat/stun.rs:239-298 | for every fitting message, every tail and every header length but the true one: decoding succeeds if and only if that length ends with an attribute and those before it are decodable, and then gives the message cut to them |
| StunFraming.RelabelledIs | src/nat/stun.rs:216-224 | those bytes are the encoding with its two length bytes replaced |
| StunFraming.TruncationSlipsThrough | src/nat/stun.rs:239-298 | so a message of plain attributes can be cut after any of them |
| StunFraming.RenamedFingerprint | src/nat/stun.rs:320-355 | under any other kind the fingerprint is decoded as one attribute more; decoding succeeds if and only if that kind is none of the four address kinds and the message's own attributes are decodable |
| StunFraming.RenamingSlipsThrough | src/nat/stun.rs:320-355 | so a message of plain attributes decodes under every kind that is no address, with the checksum as a stray attribute |
| StunFraming.AttributeLengthExactly | src/nat/stun.rs:320-501 | under another length of one attribute decoding succeeds if and only if the attributes before are decodable and, framed by that length, the rest of the body has no attribute of the fingerprint's kind and is decodable attributes to its end; it then gives the attributes so framed |
| StunFraming.LaterBoundaryIsDetected | src/nat/stun.rs:320-355 | so a length that resumes at any later attribute, or leaves the padded size as it was, is always detected |
| StunFraming.ReframedIs | src/nat/stun.rs:357-465 | those bytes are the encoding with that attribute's two length bytes replaced |
| StunFraming.SwallowedFingerprint | src/nat/stun.rs:320-501 | a length that reaches the end of the body leaves nothing checked: decoding succeeds if and only if the attributes before and the swollen one are decodable |
| StunFraming.SwallowingSlipsThrough | src/nat/stun.rs:320-501 | so an unknown attribute after plain ones can take in the rest of any message, which decodes |
| StunFraming.DecodableIs | src/nat/stun.rs:503-598 | an attribute decodes if and only if an address has a known family and its octets and a change request four bytes |
| StunFraming.ReadableIs | src/nat/stun.rs:467-501 | a region decodes if and only if it is attributes from end to end, each a fingerprint or decodable |
| StunFraming.BodyDecodes | src/nat/stun.rs:239-298 | a binding header that announces a body decodes to what the walk and the attribute loop make of that body, whatever follows |
| StunWire.AttributeBytes | src/nat/stun.rs:38-460 | every attribute on the wire: the codes 00 01, 00 03, 00 20, 80 22, 80 2B and 80 2C, the length, the value byte by byte with address masks in numbers, zeros to a multiple of four; a hand-made fingerprint is left out |
| StunWire.ReadsByNumber | src/nat/stun.rs:503-598 | what each numeric code is read as for every value: addresses exactly with a known family and all octets, and then the address with those bytes; change flags; text; any other code unknown |
| StunWire.MessageBytes | src/nat/stun.rs:195-233 | every fitting message on the wire: 00 01, 00 11, 01 01 or 01 11, the body length, 21 12 A4 42, the transaction id, the attributes, and 80 28 00 04 with the checksum of all before it XOR 0x5354554E |
| StunWire.HeaderRefusals | src/nat/stun.rs:239-298 | which fault each defect of a header gives, first one first; past the header only the announced body is read, and only the four binding types are accepted |
| StunVectors.SampleDecodes | src/nat/stun.rs:239-298 | the eighty bytes of the sample response in RFC 5769 section 2.2 decode to its product name, address and integrity attribute |
| StunVectors.Replacements | src/nat/stun.rs:520-522 | how many replacement characters a lone byte, a cut character and an overlong form give |
| StunMethods.EncodeMessage | src/nat/stun.rs:202-233 | the loop over attributes and the running buffer produce the encoding |
| StunMethods.EncodeOne | src/nat/stun.rs:357-407 | one attribute is appended to the buffer, a hand-made fingerprint not |
| StunMethods.EncodeAddressAttribute | src/nat/stun.rs:417-460 | an address attribute is appended, masked byte by byte when asked |
| StunMethods.VerifyFingerprint | src/nat/stun.rs:320-355 | the cursor loop gives the walk's verdict, also when the cursor runs past the end |
| StunMethods.ReadAttributes | src/nat/stun.rs:467-501 | the cursor loop gives the attributes, or the first fault |
| StunMethods.DecodeMessage | src/nat/stun.rs:239-298 | every check in the source's order and with its fault; what the bytes mean is in `HeaderRefusals` and `ReadsByNumber` |
| ShortIds.FreshRunIsBijection | src/discovery/short_id.rs:152-233 | after any attempts, with any faults and clocks, identities and the range from the first id to the next are in one-to-one correspondence |
| ShortIds.IdsNeverChange | src/discovery/short_id.rs:152-233 | a mapping's id and creation time never change |
| ShortIds.LookupInvertsRegister | src/discovery/short_id.rs:152-251 | after any later attempts exactly the identity that was answered an id holds it |
| ShortIds.ReRegistrationIsFree | src/discovery/short_id.rs:170-188 | an identity already mapped gets its id whatever the limits, unless clock or storage fails; only its last-seen time changes |
| ShortIds.RefusedLeavesNothing | src/discovery/short_id.rs:152-233 | anything but an id leaves every table as it was; a newcomer gets one exactly when pool, cap, window, source, clock and storage allow, in numbers, and then it is the next one, its row and the budget window exact |
| ShortIds.WindowNeverGoesBack | src/discovery/short_id.rs:205-212 | the budget window's start never decreases, whatever the clock does |
| ShortIds.NewIdsAreBudgeted | src/discovery/short_id.rs:188-233 | with readings up to T and constant limits a fresh store gives at most per_window times (T/60 + 1) ids, and at most the cap |
| ShortIds.NewIdsInAnInterval | src/discovery/short_id.rs:188-233 | from any state, also after the limit was lowered, attempts with readings in an interval give at most per_window times (length/60 + 1) ids plus what the open window has left |
| ShortIds.ShortIdStore.constructor | src/discovery/short_id.rs:108-131 | starts with no mapping, the first id and an empty budget |
| ShortIds.ShortIdStore.RegisterWithLimits | src/discovery/short_id.rs:152-233 | the transaction commits exactly what the register function gives, and neither table constraint can refuse its row |
| ShortIds.ShortIdStore.Lookup | src/discovery/short_id.rs:234-251 | found exactly for ids already given, and then the one identity that holds it |
| ShortIds.NormalizeReads | src/discovery/short_id.rs:45-66 | typed text means an id if and only if it has at most 32 characters and is that id's nine digits once spaces and hyphens are removed |
| ShortIds.DisplayRoundTrip | src/discovery/short_id.rs:45-74 | what is displayed reads back as the same id |
| NatMapping.Classify | src/nat/classify.rs:126-173 | the loops give the order-free verdict |
| NatMapping.VerdictIsOrderFree | src/nat/classify.rs:126-173 | permuting the observations does not change the verdict |
| NatMapping.VerdictIsLeast | src/nat/classify.rs:126-173 | a determined verdict is the smallest class with a NAT that explains the observations, if and only if they give each destination one mapping |
| NatMapping.NeverOverstated | src/nat/classify.rs:126-173 | a determined verdict never exceeds the class of any NAT that gives these observations |
| NatMapping.RunProbe | src/nat/classify.rs:194-310 | fails exactly without IPv4 or a first answer; concludes exactly when the answers suffice, with the smallest class that explains them; equals the classifier exactly with two or more observations mapped to IPv4; asks no destination twice, at most one that does not answer, and none after endpoint independence is known |
| Candidates.BoundCandidates | src/net/mod.rs:557-574 | the alternating loop keeps the earliest of each family up to its share, min(k6 + k4, 32) in all, listed in the promised order |
| Candidates.BoundedFairly | src/net/mod.rs:557-574 | exactly min(k6, max(16, 32 - k4)) IPv6 and min(k4, max(16, 32 - k6)) IPv4 candidates, those the earliest, stably sorted |
| Candidates.SortedIsListed | src/discovery/signal.rs:215-271 | nothing is lost, every server-reflexive candidate comes before every host one, host before predicted, predicted before relay, IPv6 before IPv4 within a kind, and those of one kind and family keep their order |
| Candidates.SortedIsStable | src/discovery/signal.rs:266-271 | sorting orders by priority then family and keeps the order of equals |
| Candidates.StableSortIsUnique | src/discovery/signal.rs:266-271 | there is only one such result, so the library's algorithm does not matter |
| Candidates.SortedIsPermutation | src/discovery/signal.rs:266-271 | sorting loses and adds nothing |
| Candidates.FilterReachable | src/net/mod.rs:793-806 | each acceptable non-relay address once, in the order of first occurrence, and no other |
| Net.UsableInNumbers | src/net/family.rs:66-82 | which addresses are usable, in octet values |
| Manifests.ValidatesExactly | src/protocol/manifest.rs:183-209 | valid if and only if chunks are 16384 to 16777216 bytes, at most 2^32 - 1, just as many as the length fills, and the root is the hash of the rest |
| Manifests.PreimageLayout | src/protocol/manifest.rs:111-128 | where label, name, lengths, sizes and every chunk hash lie in what is hashed |
| Manifests.ChunksTile | src/protocol/manifest.rs:88-225 | in a validated manifest exactly the listed indices have ranges, each starting where the one before ends, the last ending with the file, all but the last full, nothing overflowing |
| Manifests.EveryByteOnce | src/protocol/manifest.rs:205-225 | a position lies in chunk i if and only if it is in the file and i is its quotient by the chunk size |
| Manifests.ChunksReassemble | src/protocol/manifest.rs:205-225 | the pieces in order are the file |
| Manifests.VerifyChunkIsSafe | src/protocol/manifest.rs:227-238 | with a validated manifest every index and every data gets an answer, yes exactly for the right length and digest |
| Manifests.SafeExactlyWhen | src/protocol/manifest.rs:227-238 | without validation no call goes out of bounds if and only if the chunk list is as long as the claimed length needs, or longer than any index |
| Manifests.UnvalidatedMayStop | src/protocol/manifest.rs:227-238 | one byte claimed and no chunk listed goes out of bounds |
| Manifests.PreimageInjective | src/protocol/manifest.rs:111-128 | different names, lengths, chunk sizes or chunk hashes feed the hasher different bytes |
| Manifests.SameRootSameManifest | src/protocol/manifest.rs:183-245 | two validated manifests with one root hash are equal, or the hash function collides |
| Manifests.ComputeRoot | src/protocol/manifest.rs:111-128 | the feeding loop hashes exactly that preimage |
| Frames.SegmentationDoesNotShow | src/protocol/frame.rs:61-103 | however complete frames within the limit are cut into reads, exactly their payloads come out and then a clean end; cut inside a frame, the complete ones and then an error |
| Frames.EverySegmentation | src/protocol/frame.rs:61-103 | the same for every stream, with interruptions and failures: payloads and ending are right if and only if the transport never fails and every interruption falls at a byte offset inside a header; otherwise a prefix of the payloads and the transport's error |
| Frames.InterruptionsDoNotShow | src/protocol/frame.rs:67-76 | interruptions change neither the bytes nor the outcome of a header read |
| Frames.TooLongIsRefusedEarly | src/protocol/frame.rs:86-92 | an announced length over the limit fails with all of the payload still unread |
| Frames.Reader.Read | src/protocol/frame.rs:68-75 | one read takes at most what fits from the next piece, and nothing only at the end |
| Frames.Reader.ReadHeader | src/protocol/frame.rs:65-76 | the filling loop gathers the first four bytes, or what there is |
| Frames.Reader.ReadExact | src/protocol/frame.rs:94-101 | fills the payload or reports why not |
| Frames.Reader.ReadFrameLimited | src/protocol/frame.rs:61-103 | frame, clean end or fault, and the rest of the stream, as the reading function gives |
| Frames.WriteFrameLimited | src/protocol/frame.rs:27-41 | a payload within the limit goes out as length and bytes, a longer one not at all |
| LittleEndian.LeByteAt | src/protocol/frame.rs:37-85 | byte i of a number is its quotient by 256 to the i, modulo 256 |
| LittleEndian.LeRoundTrip | src/protocol/frame.rs:37-85 | a number that fits its width reads back from its bytes |

## Left out

- Sockets, tokio tasks, TLS, QUIC, timeouts and the writer loops: they appear as events.
- The postcard encoding of signaling, control and relay packets: an external library; messages are datatypes.
- SQLite: transactions are taken to be atomic, hexadecimal identities to be invertible, and a lookup to be readable; schema migration is not modelled.
- The listener addresses of the relay's configuration: `ValidConfig` covers its limits.
- The limit on simultaneous database tasks. What the address limiter, the id's range and the store say of a short-id lookup are inputs of `RateMisses`.
- The signatures and protocol versions of signaling registration: a handler's `Admit` step is one that passed them.
- `src/net/race.rs`, `src/net/signaling.rs`, `src/relay/client.rs`, `src/admin/mod.rs`.
- `safe_file_name`, address classification, command line and configuration parsing, user interface, mDNS, identity files, speed test.
- SignalRegistry.OnlineTable.TryPair: requires an outbox for every record, which `EveryInterleaving` shows of every reachable state.
- SignalRegistry.OnlineTable.Lookup: requires the same.
- StunRoundTrip.RoundTrip: says nothing of bodies of 65528 bytes or more, whose length field is truncated.
- StunFingerprint.AlterationIsDetected: does not cover length fields or the fingerprint's own kind, which the code does not protect; `StunFraming` states what altering each of them does, one field at a time.
