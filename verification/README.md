# Verified model of iroh-http

A Dafny model of the parts of iroh-http that hold protocols, policies and codecs of their own, with proofs of what
they promise. `dafny verify dfyconfig.toml` checks everything.

Concurrent code is modelled as a state machine: a total function `Step` over labels, where a label is one lock
section, one atomic operation or one synchronous JavaScript stretch, and one that is not enabled changes nothing.
`Run` takes any sequence of labels, so a lemma about `Run(Init(), labels)` is about every interleaving of any number
of calls. Sequential code that works by updating things is modelled by classes and methods with loops, proved against
functions.

| part | modules |
|---|---|
| DNS-SD advertisement: update, close, waiting for the close, and the daemon's command queue | `MdnsDaemon`, `MdnsAdvertisement`, `MdnsWaiters` |
| Deno serve queue, waker and JavaScript wake signal | `ServeSignal`, `ServeWake`, `ServeBridge`, `ServeWakeSafety`, `ServeWakeLoss`, `ServeConservation` |
| `serve()` cycles: guard, handler tasks, body pipes, `finished` | `ServeCycle` |
| Peer advertisement policy, its browse inverse and the refresh loop | `NetAddr`, `TxtPacking`, `PeerDirect`, `PeerConfig`, `PeerRecord`, `PeerRefresh` |
| Peer browse session | `PeerBrowse` |
| Discovery iterator and advertisement run | `DiscoveryIterator`, `DiscoveryReports`, `DiscoveryAdvertisement` |
| Discovery handle and session tables | `DiscoveryRegistry`, `DiscoveryRuns`, `DiscoveryBridge` |
| Overflow cache and split fetch | `OverflowCache`, `OverflowRuns`, `SplitFetch` |
| Base32 and address literals | `Bits`, `Base32`, `Decimal`, `IpLiteral`, `Ipv6Forms` |
| Shared vocabulary | `Common`, `Sequences`, `Text` |

## Where the code does less than its comments say

Each of these has a lemma with a run or an input, and a theorem that says exactly when the property holds.

- A stop that stands between its two registry lookups when a new cycle registers its queue can lose a wakeup: it drains
  a queue it never shut down, and the loop, refused the receiver, parks. Without such a stop no wakeup is lost
  (`ServeWakeSafety.NoLostWakeup`); from every reachable state with one, some continuation loses one
  (`ServeWakeLoss.StopBetweenLosesWakeup`).
- A second `close()` of a peer browse may return while events are pending or about to be queued
  (`PeerBrowse.LosingCloseCanReturnEarly`, `EmptyForGoodIff`).
- A peer candidate with a scope is published, and surfaced by a browser, without it
  (`PeerConfig.PublishedIsCandidateIff`, `PeerRecord.SurfacedAreCandidatesIff`, `ScopedSurfacesUnscoped`).
- Base32 decoding lets through characters that are no base32 digits: those beyond code 255, and those like the sharp s
  that upper-case to digits (`Base32.ThrowsRightlyIff`, `AlwaysRightIff`, `SharpSSlips`, `BeyondTableReadsAsZero`).
- `isIpv6Literal` accepts an IPv4 address before a final "::" and is right about every other text
  (`Ipv6Forms.FormIffAccepted`, `IpLiteral.MisplacedIsAccepted`).
- A "__cached" retry whose buffer is still too small does not put its response back: it locks the cache mutex it holds
  and never returns, and every later overflow or retry blocks (`OverflowRuns.TooSmallRetryHangs`,
  `ReturnsAndKeepsIff`). The cache stands at most one entry above its limit (`WithinBudgetButLast`,
  `CacheCanPassLimit`).
- A failed native close can be reported to a `return()` and to a polling `next()` both
  (`DiscoveryReports.ReportedOnlyOnceIff`, `BothCanReport`).
- A fetch poll with room can be answered -1 while another poll holds the finished result
  (`SplitFetch.InterleavedPoll`, `AdequatePollCanMiss`).
- `serve()` called without a handler leaves the run guard raised (`ServeCycle.MissingHandlerBlocksServe`, `WedgedIff`).
- An exception in the Deno request loop rejects `finished` without waiting for handler tasks
  (`ServeCycle.NothingLeftOverWithoutCrash`, `CrashLeavesWork`).
- The handle of an earlier serve cycle can stop a later one (`ServeCycle.SafeFromEarlierIff`,
  `EarlierHandleStopsLaterCycle`).

## Model

| member | source | states |
|---|---|---|
| `MdnsDaemon.ServiceDaemon.RetryDaemonCommand` | crates/iroh-http-discovery/src/dns_sd.rs:61-72 | a command offered again on "Again" is enqueued exactly once when the last reply is "sent" and not at all otherwise; the last offer is where the retry rule stops |
| `MdnsDaemon.RetryStopsOnce` | crates/iroh-http-discovery/src/dns_sd.rs:61-72 | the retry rule has one stopping point, so the retry contract leaves no choice |
| `MdnsDaemon.ServiceDaemon.StopAfterUnregister` | crates/iroh-http-discovery/src/dns_sd.rs:74-94 | success means no registration survives in the FIFO daemon; a registration survives only if both the unregister and the shutdown were refused |
| `MdnsDaemon.OfferedStopSilences` | crates/iroh-http-discovery/src/dns_sd.rs:74-94 | an accepted unregister or shutdown, or a daemon that has already exited, leaves nothing announced once the queue is drained |
| `MdnsAdvertisement.NoRegisterAfterClose` | crates/iroh-http-discovery/src/dns_sd.rs:260-382 | in every interleaving of updates and closes, once the close result is set it never changes and no register is issued again |
| `MdnsAdvertisement.CloseWithdraws` | crates/iroh-http-discovery/src/dns_sd.rs:260-363 | after a successful close no registration survives in the daemon at any later point; after a failed one only if both commands were refused |
| `MdnsAdvertisement.CleanupRunsOnce` | crates/iroh-http-discovery/src/dns_sd.rs:260-282 | the cleanup body runs at most once, and has run once when there is a result |
| `MdnsAdvertisement.ClosingStopsLaterUpdates` | crates/iroh-http-discovery/src/dns_sd.rs:296-363 | the raised flag alone stops every update that has not passed its last check |
| `MdnsAdvertisement.RegisterCanOvertakeClosing` | crates/iroh-http-discovery/src/dns_sd.rs:96-113 | a run in which the flag rises between the last check and the register: the register is issued, and the close waiting behind it withdraws it |
| `MdnsAdvertisement.RequestedCloseCanComplete` | crates/iroh-http-discovery/src/dns_sd.rs:350-382 | from every reachable state with a requested close, at most eleven actions lead to a result |
| `MdnsWaiters.NoWaiterIsMissed` | crates/iroh-http-discovery/src/dns_sd.rs:279-292 | once the cleanup has notified, no waiter sleeps on a notification already made, and whoever returned got the one close result |
| `MdnsWaiters.NobodyReturnsEarly` | crates/iroh-http-discovery/src/dns_sd.rs:365-382 | no waiter returns before there is a result |
| `MdnsWaiters.EveryWaiterCanReturn` | crates/iroh-http-discovery/src/dns_sd.rs:276-382 | from every reachable state with a requested close at most sixteen actions release any waiter, blocking or async, with the close result, however it raced the cleanup |
| `ServeSignal.WakesCollapse` | packages/iroh-http-deno/src/adapter.ts:291-314 | any number of wakes while the loop is busy make exactly one later wait return at once |
| `ServeBridge.Bridge.Register` | packages/iroh-http-deno/src/serve_registry.rs:92-110 | registering is the registration step of the machine the wake theorems are about |
| `ServeBridge.Bridge.WakeRequestLoop` | packages/iroh-http-deno/src/serve_registry.rs:74-82 | run without interruption, waking is a stretch of the thread's steps in that machine and ends at the caller's next business |
| `ServeBridge.Bridge.Deliver` | packages/iroh-http-deno/src/dispatch.rs:123-165 | likewise for a delivery: the stretch ends with the request accepted or refused, as the call reports |
| `ServeBridge.Bridge.Remove` | packages/iroh-http-deno/src/serve_registry.rs:126-136 | likewise for removing the queue on close |
| `ServeBridge.Bridge.SignalShutdown` | packages/iroh-http-deno/src/serve_registry.rs:143-148 | likewise for the shutdown signal, which ends before the second lookup of a stop |
| `ServeBridge.Bridge.StopServe` | packages/iroh-http-deno/src/dispatch.rs:851-867 | likewise for a whole stop: shutdown, second lookup, and the drain if the receiver is free |
| `ServeBridge.Bridge.Drain` | packages/iroh-http-deno/src/dispatch.rs:860-866 | the receive loop of the drain is a stretch of drain steps and the release of the receiver |
| `ServeBridge.Bridge.SetRequestReadyWaker` | packages/iroh-http-deno/src/serve_registry.rs:61-71 | installing the waker is a stretch of the loop's steps, ending at its first poll or, without a queue, at its exit |
| `ServeBridge.Bridge.TryNextRequest` | packages/iroh-http-deno/src/lib.rs:616-664 | a poll is a stretch of the loop's steps; what it returns decides where the loop goes on, and a returned request is the one taken |
| `ServeWakeSafety.NoLostWakeup` | packages/iroh-http-deno/src/adapter.ts:887-974 | in every reachable state a parked loop whose queue is shut down or removed has a wake coming; so has one whose queue holds a request if no stop stood between its two lookups when that queue was registered |
| `ServeWakeSafety.NoLostWakeupWithinCycles` | packages/iroh-http-deno/src/adapter.ts:966-974 | in particular, no wakeup is lost when every stop is issued while its cycle runs and is awaited by it |
| `ServeWakeLoss.StopBetweenLosesWakeup` | packages/iroh-http-deno/src/dispatch.rs:851-867 | the condition is needed: from every reachable state in which a cycle is about to register its queue while a stop stands between its lookups, some continuation parks the loop beside a queued request with no wake owed |
| `ServeWakeLoss.StopCanStandBetween` | packages/iroh-http-deno/src/adapter.ts:1084-1101 | such a state arises: a cycle fails to start, its handle is closed afterwards, and the next cycle begins |
| `ServeWakeSafety.OwedWakeArrives` | packages/iroh-http-deno/src/serve_registry.rs:74-82 | an owed wake needs at most four actions of those that owe it |
| `ServeConservation.EveryRequestInOnePlace` | packages/iroh-http-deno/src/dispatch.rs:123-165 | at every point of every run a request is in exactly one of: being delivered, rejected, queued, polled, drained by a stop |
| `ServeConservation.GenerationsAreFifo` | packages/iroh-http-deno/src/lib.rs:625-664 | each generation hands out what it accepted in order and without repetition, and never holds more than 256 |
| `TxtPacking.FitTxtValues` | crates/iroh-http-discovery/src/lib.rs:131-150 | the loop yields the comma-joined packed values, or nothing if none fits |
| `TxtPacking.PackedIsMaximal` | crates/iroh-http-discovery/src/lib.rs:131-150 | whole non-empty values in input order, at most 255 bytes with key and "=", and no omitted non-empty value would still fit the final entry |
| `TxtPacking.PackedSplitsBack` | crates/iroh-http-discovery/src/lib.rs:131-150 | splitting the entry on commas recovers exactly the packed values |
| `NetAddr.FaithfulCodecExists` | crates/iroh-http-discovery/src/lib.rs:171-248 | an injective comma-free address printer with a matching parser exists, so the assumption the peer theorems make can be met |
| `PeerDirect.PeerDirectAddresses` | crates/iroh-http-discovery/src/lib.rs:602-642 | the two loops select exactly the listed candidates in order, first occurrences only |
| `PeerDirect.DirectMembers` | crates/iroh-http-discovery/src/lib.rs:602-642 | membership both ways: routable endpoint candidates with real or borrowed port, and routable interfaces some listener serves |
| `PeerDirect.DirectIsDialable` | crates/iroh-http-discovery/src/lib.rs:602-667 | no duplicates, only routable addresses with real ports, each from a supplied candidate or interface |
| `PeerDirect.DirectIsIdempotent` | crates/iroh-http-discovery/src/lib.rs:602-642 | selecting from a selection changes nothing |
| `PeerConfig.BuildConfig` | crates/iroh-http-discovery/src/lib.rs:721-834 | the builder with its loops and early error equals the specified record |
| `PeerConfig.CollectAddrs` | crates/iroh-http-discovery/src/lib.rs:790-816 | the A/AAAA list: announceable interfaces, else the fallback candidates |
| `PeerConfig.FailsIffNoRealPort` | crates/iroh-http-discovery/src/lib.rs:755-789 | the call fails exactly when every bound port is a placeholder |
| `PeerConfig.PublishedAddrsAreBacked` | crates/iroh-http-discovery/src/lib.rs:742-816 | every A/AAAA address with the SRV port is, up to its scope, a direct candidate, and is backed by a same-family listener with that real port |
| `PeerConfig.PublishedIsCandidateIff` | crates/iroh-http-discovery/src/lib.rs:742-816 | it is a direct candidate as it stands exactly when an unscoped endpoint candidate is just that, or a placeholder candidate or live interface borrows the port; otherwise the candidate behind it carries a scope |
| `PeerConfig.WithoutScopesPublishedAreCandidates` | crates/iroh-http-discovery/src/lib.rs:742-816 | it always is when no endpoint candidate carries a scope |
| `PeerConfig.ScopedIsPublishedUnscoped` | crates/iroh-http-discovery/src/lib.rs:800-816 | an endpoint whose only candidate carries a scope publishes an address that with the SRV port is no candidate |
| `PeerConfig.AddrsEmptyIffUnbacked` | crates/iroh-http-discovery/src/lib.rs:742-816 | the list is empty exactly when no real-port listener has an eligible interface or backs a candidate |
| `PeerConfig.AnnounceableIsDirect` | crates/iroh-http-discovery/src/lib.rs:742-816 | an announceable interface paired with the SRV port is itself a direct candidate |
| `PeerRecord.PeerEventFromRecord` | crates/iroh-http-discovery/src/lib.rs:171-248 | the loops yield the specified event |
| `PeerRecord.DirectTextMembers` | crates/iroh-http-discovery/src/lib.rs:171-261 | what is surfaced: parsed TXT candidates, and A/AAAA addresses with the SRV port that no TXT candidate of the same host overrides |
| `PeerRecord.TxtAddrsArePacked` | crates/iroh-http-discovery/src/lib.rs:171-248 | the TXT candidates a browser reads are exactly the packed ones |
| `PeerRecord.SurfacedAddressesAreDirect` | crates/iroh-http-discovery/src/lib.rs:171-248 | advertise then browse: every surfaced direct address is one of the advertiser's direct candidates, as it stands or without its scope |
| `PeerRecord.SurfacedAreCandidatesIff` | crates/iroh-http-discovery/src/lib.rs:171-248 | all of them are candidates as they stand exactly when every published address that no TXT port suppresses comes from an input without a scope |
| `PeerRecord.ScopedSurfacesUnscoped` | crates/iroh-http-discovery/src/lib.rs:171-248 | an endpoint whose only candidate carries a scope: the browser also surfaces it without, which is the text of no candidate |
| `PeerRecord.PackedCandidatesSurface` | crates/iroh-http-discovery/src/lib.rs:171-248 | no packed TXT candidate is dropped |
| `PeerRecord.InterfaceAddressesSurface` | crates/iroh-http-discovery/src/lib.rs:171-261 | addresses taken from live interfaces are never suppressed by the TXT-port rule |
| `PeerRecord.SuppressedIffPackedElsewhere` | crates/iroh-http-discovery/src/lib.rs:171-261 | a published address is suppressed exactly when the TXT entry carries the same IP with another port |
| `PeerRecord.ResolvedEvent` | crates/iroh-http-discovery/src/lib.rs:171-248 | the event exists unless the instance label is empty, names the advertiser and ends with its first relay |
| `PeerRefresh.RunRefresh` | crates/iroh-http-discovery/src/lib.rs:866-970 | the refresh loop publishes and finishes as the step function says |
| `PeerRefresh.NeverPublishesStaleAddress` | crates/iroh-http-discovery/src/lib.rs:866-970 | over every run no published record carries, in A/AAAA or TXT, an IP that an inventory so far listed as local and the current one does not |
| `PeerBrowse.ClosedForGood` | crates/iroh-http-discovery/src/lib.rs:356-386 | once the winning close has returned, pending stays empty for ever and an installed endpoint task is aborted, however installation raced it |
| `PeerBrowse.LaterPollsYieldNone` | crates/iroh-http-discovery/src/lib.rs:445-493 | a poll begun after any close returned yields None if it returns |
| `PeerBrowse.PendingOutlivesOnlyTheSwap` | crates/iroh-http-discovery/src/lib.rs:368-386 | with the session closed, pending is non-empty only while the winning close stands before its clear |
| `PeerBrowse.EmptyForGoodIff` | crates/iroh-http-discovery/src/lib.rs:368-493 | a returned close, winning or losing, leaves pending empty for good exactly if the winner has cleared it, or it is empty and no poll is about to queue a second event |
| `PeerBrowse.LosingCloseCanReturnEarly` | crates/iroh-http-discovery/src/lib.rs:368-386 | a second close can return inside that window |
| `DiscoveryIterator.OneStartOnePoll` | packages/iroh-http-shared/src/dns-sd.ts:121-211 | over every run start is invoked at most once and polls never overlap |
| `DiscoveryIterator.NoPollAfterTermination` | packages/iroh-http-shared/src/dns-sd.ts:87-211 | termination is permanent and no poll is invoked after it |
| `DiscoveryIterator.HandleClosedExactlyOnce` | packages/iroh-http-shared/src/dns-sd.ts:80-161 | a handle from start, early or late, is given to close exactly once if the iterator terminated, and not before |
| `DiscoveryIterator.CloseGetsInvoked` | packages/iroh-http-shared/src/dns-sd.ts:80-161 | after termination at most two microtasks invoke the native close of a handle that was obtained |
| `DiscoveryIterator.FinishUnblocks` | packages/iroh-http-shared/src/dns-sd.ts:163-234 | from every reachable finished state the k-th call settles within 8(k+1) stretches of the calls up to it and of the native close, whether that succeeds or fails, without anything more from start or poll |
| `DiscoveryIterator.LaterNextIsSticky` | packages/iroh-http-shared/src/dns-sd.ts:163-234 | a call not begun at termination ends or throws the close failure, and only ends once that failure is consumed |
| `DiscoveryIterator.LaterReturnIsSticky` | packages/iroh-http-shared/src/dns-sd.ts:213-234 | a return() not settled when the failure is consumed ends quietly |
| `DiscoveryReports.ReportedOnceEachWay` | packages/iroh-http-shared/src/dns-sd.ts:163-233 | over every run at most one call of next() and at most one of return() report the failed close |
| `DiscoveryReports.ReportedOnlyOnceIff` | packages/iroh-http-shared/src/dns-sd.ts:173-230 | after a return() has reported it, no next() ever does exactly if none was polling, awaiting the close after a poll, or already failing with it |
| `DiscoveryReports.NextReportIsLast` | packages/iroh-http-shared/src/dns-sd.ts:201-230 | after a next() has reported it, no return() does |
| `DiscoveryReports.BothCanReport` | packages/iroh-http-shared/src/dns-sd.ts:187-230 | from every reachable state in which the iterator runs and a call polls, a return() and that call can both report the one failed close |
| `DiscoveryReports.PollingArises` | packages/iroh-http-shared/src/dns-sd.ts:121-198 | a run into such a state |
| `DiscoveryAdvertisement.ClosedOnceIffAborted` | packages/iroh-http-shared/src/dns-sd.ts:250-309 | one start at most; one close at most, only after an abort, and exactly when a signalled start produced a handle |
| `DiscoveryAdvertisement.AbortedBeforeNeverStarts` | packages/iroh-http-shared/src/dns-sd.ts:250-309 | a signal aborted beforehand means no native start |
| `DiscoveryAdvertisement.AbortCanComplete` | packages/iroh-http-shared/src/dns-sd.ts:250-309 | after an abort at most six stretches settle the call and invoke the close |
| `Base32.BuildLookup` | packages/iroh-http-shared/src/base32.ts:8-12 | the table maps each alphabet character to its index and every other code to 0xff |
| `Base32.Encode` | packages/iroh-http-shared/src/base32.ts:15-27 | despite 32-bit wrap-around the digits spell the bits of the octets, filled up with fewer than five zeros |
| `Base32.Decode` | packages/iroh-http-shared/src/base32.ts:30-45 | throws exactly when a refused character precedes the first "="; otherwise the bytes are the whole octets among the digits' bits |
| `Bits.ShiftOrAppends` | packages/iroh-http-shared/src/base32.ts:15-45 | shifting a value into the 32-bit register appends its bits, whatever the register held above them |
| `Base32.EncodingIsUnique` | packages/iroh-http-shared/src/base32.ts:15-27 | the bit-string reading determines the text |
| `Base32.DecodingIsUnique` | packages/iroh-http-shared/src/base32.ts:30-45 | the bit-string reading determines the outcome |
| `Base32.DecodeUndoesEncode` | packages/iroh-http-shared/src/base32.ts:15-45 | decode(encode(b)) is b for all byte strings |
| `Base32.EncodeUndoesDecodeIffCanonical` | packages/iroh-http-shared/src/base32.ts:15-45 | encode(decode(s)) is the lower-case s exactly when fewer than five bits are left over and they are zero |
| `Base32.ThrowsIffRefused` | packages/iroh-http-shared/src/base32.ts:30-45 | decoding throws exactly when some character before the first "=" is upper-cased to something the table refuses |
| `Base32.ThrowsRightlyIff` | packages/iroh-http-shared/src/base32.ts:30-45 | it throws exactly on texts with a non-base32 character before the first "=", unless such a character slips through upper-casing and the table, and none is refused |
| `Base32.AlwaysRightIff` | packages/iroh-http-shared/src/base32.ts:30-45 | decoding is right about every text exactly when no character slips through |
| `Base32.SharpSSlips` | packages/iroh-http-shared/src/base32.ts:30-36 | the sharp s slips through: it is upper-cased to two digits |
| `Base32.BeyondTableReadsAsZero` | packages/iroh-http-shared/src/base32.ts:33-36 | so does every character beyond code 255 that is its own upper case; two of them decode to one zero byte |
| `IpLiteral.Ipv4LiteralIff` | packages/iroh-http-shared/src/discovery.ts:143-153 | accepted are exactly the canonical dotted texts of four bytes |
| `IpLiteral.IsIpv6Literal` | packages/iroh-http-shared/src/discovery.ts:162-186 | the method with its early tests and group loop accepts exactly what the specified condition accepts |
| `IpLiteral.CountUnits` | packages/iroh-http-shared/src/discovery.ts:169-181 | the loop counts 16-bit groups, two for a final IPv4 address, or meets a bad group |
| `IpLiteral.RejectedEarly` | packages/iroh-http-shared/src/discovery.ts:163-163 | the empty-text and character tests refuse nothing the rest would let through |
| `IpLiteral.TakesApart` | packages/iroh-http-shared/src/discovery.ts:164-168 | splitting a text put together from plain groups recovers exactly those groups |
| `IpLiteral.AcceptsIff` | packages/iroh-http-shared/src/discovery.ts:162-186 | accepted are exactly the texts of group lists the loop accepts |
| `IpLiteral.LegalIffAccepted` | packages/iroh-http-shared/src/discovery.ts:162-186 | accepted, but for an IPv4 address before a final "::", are exactly the well-formed group lists with the IPv4 address last |
| `Ipv6Forms.FormIffAccepted` | packages/iroh-http-shared/src/discovery.ts:162-186 | a text is a form, by section 2.2 of RFC 4291, of eight 16-bit values exactly when it is accepted and is not an IPv4 address before a final "::" |
| `Ipv6Forms.EveryAddressHasForm` | packages/iroh-http-shared/src/discovery.ts:162-186 | every eight 16-bit values have a form |
| `Ipv6Forms.EveryFormIsDialable` | packages/iroh-http-shared/src/discovery.ts:198-217 | every form of every address, in brackets with any port 1 to 65535, is accepted |
| `IpLiteral.MisplacedIsAccepted` | packages/iroh-http-shared/src/discovery.ts:169-177 | every IPv4 address followed by "::" is accepted |
| `IpLiteral.IsDialableSocketAddr` | packages/iroh-http-shared/src/discovery.ts:198-217 | the method accepts exactly what the specified condition accepts |
| `IpLiteral.DialableIff` | packages/iroh-http-shared/src/discovery.ts:198-217 | accepted are exactly an accepted host, a colon and one to five digits of value 1 to 65535 |
| `IpLiteral.LegalIpv4IsDialable` | packages/iroh-http-shared/src/discovery.ts:198-217 | every IPv4 address with any port 1 to 65535 is accepted |
| `OverflowCache.Cache.SumLengths` | packages/iroh-http-deno/src/lib.rs:119-120 | the byte count of the loop condition, in whatever order the keys come |
| `OverflowCache.Cache.Oldest` | packages/iroh-http-deno/src/lib.rs:122-122 | an entry no younger than any other |
| `OverflowCache.Cache.EvictOverflow` | packages/iroh-http-deno/src/lib.rs:115-128 | terminates within 256 entries and 64 MiB; keeps only unexpired entries; squeezes out oldest first, and the last one squeezed out would not have fit |
| `OverflowCache.EvictionIsUnique` | packages/iroh-http-deno/src/lib.rs:115-128 | with no two entries of the same age these conditions determine what is left |
| `OverflowRuns.DeliveredAtMostOnce` | packages/iroh-http-deno/src/lib.rs:186-221 | over every run of callers on any number of threads a cached response comes back at most once and byte for byte |
| `OverflowCache.EvictionExists` | packages/iroh-http-deno/src/lib.rs:115-128 | eviction comes to an end from every cache |
| `OverflowRuns.EveryResponseInOnePlace` | packages/iroh-http-deno/src/lib.rs:186-269 | each response is in exactly one of: about to be cached, cached, with the call that hangs, delivered, evicted |
| `OverflowRuns.RetryMissesIff` | packages/iroh-http-deno/src/lib.rs:186-221 | while the lock is free a retry misses a response exactly if that is about to be cached, delivered or evicted |
| `OverflowRuns.GoneForGood` | packages/iroh-http-deno/src/lib.rs:186-269 | a response that was delivered, evicted or taken by the call that hangs never comes back |
| `OverflowRuns.TooSmallRetryHangs` | packages/iroh-http-deno/src/lib.rs:194-220 | from every reachable state a retry with too small a buffer never returns, because it locks again the cache it still holds; its response is gone, nothing is cached or delivered any more, and every call at the lock stays there |
| `OverflowRuns.TooSmallRetryArises` | packages/iroh-http-deno/src/lib.rs:194-269 | a run up to such a retry |
| `OverflowRuns.HeldIff` | packages/iroh-http-deno/src/lib.rs:194-220 | the cache lock is held for good exactly when some retry of a cached response came with too small a buffer |
| `OverflowRuns.ReturnsAndKeepsIff` | packages/iroh-http-deno/src/lib.rs:186-269 | at any point of any run all calls can return and nothing but eviction has lost a response exactly when no retry of a cached response came with a buffer smaller than the size reported for it |
| `OverflowRuns.WithinBudgetButLast` | packages/iroh-http-deno/src/lib.rs:245-269 | at every point of every run the cache is within its limits but for the response cached last: at most 257 entries |
| `OverflowRuns.CacheCanPassLimit` | packages/iroh-http-deno/src/lib.rs:245-269 | the bound is tight: some run fills the cache to any size up to it |
| `SplitFetch.DeliveredAtMostOnce` | packages/iroh-http-deno/src/lib.rs:705-899 | in every interleaving a token is delivered at most once, with the bytes its task computed |
| `SplitFetch.SignalledIsRetrievable` | packages/iroh-http-deno/src/lib.rs:788-807 | a token whose callback was made has its result among the results, or a poll already had it |
| `SplitFetch.TooSmallPollsLoseNothing` | packages/iroh-http-deno/src/lib.rs:823-899 | however polls interleave, a finished result that never met a large enough buffer is not lost or altered |
| `SplitFetch.PollsInTurn` | packages/iroh-http-deno/src/lib.rs:823-899 | polls of a finished token with nothing in between answer its size until a buffer is large enough, then exactly its bytes, then -1 |
| `SplitFetch.InterleavedPoll` | packages/iroh-http-deno/src/lib.rs:823-899 | whatever happens between its lock sections, a poll of a finished token answers with the result exactly if the token is among the results at its first section or in the registry at its second; otherwise -1, and the result is held, put back or delivered by another call, or not registered or published yet |
| `SplitFetch.FinishedTokenArises` | packages/iroh-http-deno/src/lib.rs:705-747 | a run into a state with a finished registered token and only idle callers |
| `SplitFetch.AdequatePollCanMiss` | packages/iroh-http-deno/src/lib.rs:851-899 | from every state with a finished registered token and two idle callers, an adequate poll can be answered -1 while a too-small one holds the token, which is put back afterwards |
| `SplitFetch.GoneForGood` | packages/iroh-http-deno/src/lib.rs:823-899 | a delivered token, or one whose panic was reported, stays so |
| `DiscoveryRegistry.DrainEndpointOwned` | packages/iroh-http-deno/src/dispatch.rs:1079-1091 | removes exactly the endpoint's entries and returns their sessions, one for each |
| `DiscoveryBridge.DiscoveryState.AllocDiscoveryHandle` | packages/iroh-http-deno/src/dispatch.rs:1061-1070 | hands out the old counter value, or nothing at the last 32-bit value |
| `DiscoveryBridge.DiscoveryState.Activate` | packages/iroh-http-deno/src/dispatch.rs:1117-1121 | activating is the step of the machine the discovery theorems are about |
| `DiscoveryBridge.DiscoveryState.PublishPeer` | packages/iroh-http-deno/src/dispatch.rs:1168-1197 | likewise for the end of a peer start: the handle it reports is the one issued, and a refused session is left to be closed |
| `DiscoveryBridge.DiscoveryState.AllocGeneric` | packages/iroh-http-deno/src/dispatch.rs:1443-1446 | likewise for the handle a generic start takes outside the lock |
| `DiscoveryBridge.DiscoveryState.InsertGeneric` | packages/iroh-http-deno/src/dispatch.rs:1447-1449 | likewise for its insertion |
| `DiscoveryBridge.DiscoveryState.Retire` | packages/iroh-http-deno/src/dispatch.rs:1124-1138 | likewise for the locked part of retiring: the sessions returned are those the machine leaves to be closed |
| `DiscoveryBridge.DiscoveryState.Lookup` | packages/iroh-http-deno/src/dispatch.rs:1243-1253 | likewise for looking a browse up |
| `DiscoveryBridge.DiscoveryState.RemoveSame` | packages/iroh-http-deno/src/dispatch.rs:1256-1263 | likewise for removing it if it is still the same |
| `DiscoveryBridge.DiscoveryState.CloseAd` | packages/iroh-http-deno/src/dispatch.rs:1324-1334 | likewise for taking an advertisement out |
| `DiscoveryRuns.HandlesAreIssuedOnce` | packages/iroh-http-deno/src/dispatch.rs:1061-1070 | over every run no handle is issued twice, and none is the last 32-bit value |
| `DiscoveryRuns.TablesAreDisjoint` | packages/iroh-http-deno/src/dispatch.rs:1095-1101 | the four tables never share a handle, though generic starts allocate outside the lock |
| `DiscoveryRuns.PublishedIsActive` | packages/iroh-http-deno/src/dispatch.rs:1168-1197 | every published peer session belongs to an active endpoint |
| `DiscoveryRuns.RetireIsFinal` | packages/iroh-http-deno/src/dispatch.rs:1124-1138 | after a retire, whatever was starting or starts later, no session of the endpoint is in a table again |
| `DiscoveryRuns.RetireClosesAll` | packages/iroh-http-deno/src/dispatch.rs:1124-1138 | when the retiring call is done every session it found has been closed, and any other of that endpoint is closed, ended by itself, or still in the hands of a call |
| `DiscoveryRuns.RetiredSessionCanClose` | packages/iroh-http-deno/src/dispatch.rs:1124-1197 | in every reachable state a session of a retired endpoint is over, or at most two steps of the call that has it in hand close it |
| `DiscoveryRuns.NeverAnotherSession` | packages/iroh-http-deno/src/dispatch.rs:1243-1267 | the identity check before a removal never finds another session under the handle |
| `ServeCycle.FinishedMeansAllDone` | packages/iroh-http-shared/src/serve.ts:375-414 | when finished is fulfilled every handler task and every response-body pipe of the cycle has settled |
| `ServeCycle.OneCycleAtATime` | packages/iroh-http-shared/src/serve.ts:210-223 | at most one cycle runs at a time, and none while the guard is down |
| `ServeCycle.SettledMeansLoopOver` | packages/iroh-http-deno/src/adapter.ts:899-975 | once finished has settled the request loop is over |
| `ServeCycle.NothingLeftOverWithoutCrash` | packages/iroh-http-deno/src/adapter.ts:899-975 | unless its loop throws, a cycle whose finished has settled either way has no task or pipe left over |
| `ServeCycle.CrashLeavesWork` | packages/iroh-http-deno/src/adapter.ts:905-975 | from every reachable state with a looping cycle an exception in its loop rejects finished with the same tasks and pipes still going on; the expressions that can throw are the larger buffer, the JSON parse and the handle conversions |
| `ServeCycle.CrashLeavesTasks` | packages/iroh-http-deno/src/adapter.ts:933-975 | a run in which finished rejects while a handler is at work |
| `ServeCycle.MissingHandlerBlocksServe` | packages/iroh-http-shared/src/serve.ts:213-239 | serve() without a handler throws with the guard raised; if no cycle was running, none can be started on this node afterwards |
| `ServeCycle.WedgedIff` | packages/iroh-http-shared/src/serve.ts:213-239 | the guard is left raised for good exactly by a call without a handler that found it down |
| `ServeCycle.StopIssuedAtMostOnce` | packages/iroh-http-shared/src/serve.ts:428-452 | each serve handle issues at most one native stop |
| `ServeCycle.SafeFromEarlierIff` | packages/iroh-http-shared/src/serve.ts:428-452 | a running cycle can no longer be stopped through the handle of an earlier one exactly when each of those has issued its stop |
| `ServeCycle.EarlierHandleStopsLaterCycle` | packages/iroh-http-deno/src/adapter.ts:1084-1101 | a run in which the handle of a cycle that was refused its options stops the next, looping one, because a stop names only the endpoint |

## Left out

- QUIC, hyper, the connection pool, the handle store, `SourceScopedAddressLookup` and the discovery engine: foreign or
  not self-contained; where a model needs them they are steps with any outcome.
- mdns-sd: only a FIFO of commands whose offers may fail, be refused for now, or find the daemon gone.
- Validation of the service record before a register is a step with either outcome.
- Body chunk reads (`next_chunk`, `try_next_chunk`) and the growing read buffer: they rest on the handle store.
- The `nextRequest` dispatch path, which holds the receiver lock across an await: the adapter's loop never calls it.
- Connection events and path-change subscriptions: separate queues, which the serve loop does not touch.
- Node and Tauri bindings, JSON dispatch, option coercion, error classification, signing and native library loading.
- Wall-clock delays are steps that may happen at any time; creation times in the overflow cache are numbers.
- The 64-bit overflow and fetch counters are unbounded numbers; their wrap-around is not modelled.
- IPv6 flow info is not part of a socket address here; one `char` of a TXT value stands for one byte.
- `toUpperCase` is a parameter of the base32 decoder, of which only the ASCII part is assumed, and, where the subject is
  when decoding throws, that it makes no "="; lone surrogates are not characters here.
- Trimming of TXT values knows the four ASCII spaces, not all of Unicode's.
- That the second `lock` of a mutex by the thread that holds it does not return is what Rust's standard library
  promises; whether it blocks or panics, which across the C boundary ends the process, is left open.
- Address texts are those of an injective, comma-free printer with a matching parser, given as a parameter.
- Endpoint handles are never reissued, and are unknown to callers before the endpoint is activated.
- Where the response token is written when the caller's buffer has fewer than eight bytes: any caller may ask for any
  token instead.
- MdnsAdvertisement.RequestedCloseCanComplete: says that a result can be reached with accepted commands, not that the
  scheduler gets there.
- MdnsWaiters.EveryWaiterCanReturn: likewise a bound on the actions needed, not fairness.
- DiscoveryIterator.CloseGetsInvoked: likewise a bound on the steps needed, not fairness.
- ServeWake counts no stops: that a handle issues one at most is part of `ServeCycle`.
- `shutdown_all` over several endpoints: the serve machine has one endpoint, for which it is a close.
- The last `catch` of the Deno adapter swallows endpoint-gone errors. The loop itself throws none: its native calls
  return numbers, and what it can throw are range, syntax and type errors of JavaScript.
