# dvpnd: a verified model

This project models the parts of dvpnd, a node that sells VPN sessions settled
on a chain, where a mistake costs money, addresses or traffic, and proves what
they keep. Each part of the program that changes things in place is a class or
a loop proved equal to a function on values; the properties are proved about
those functions, over every input, every run and every interleaving.

| files | subject |
|---|---|
| `Sessions`, `Admission`, `Jobs`, `Lifecycle`, `ChainTotals`, `Readings`, `Crossings`, `Allocations`, `Reporting`, `Node` | the session lifecycle: handshakes, usage and update passes, reports, restarts |
| `Addresses`, `Networks`, `Pool`, `WireGuard`, `Amnezia`, `Subnets` | tunnel addresses: the step to the next one, the pools, the peers that hold them, the two AmneziaWG tiers |
| `Firewall`, `Chains`, `Kernel`, `Egress` | the egress firewall: installing and removing own chains, and what the rules decide |
| `Events`, `Management`, `Accounting`, `Banking`, `Deltas` | OpenVPN's management connection, OpenVPN's and Hysteria's traffic accounting |
| `Wire`, `Stats` | the wire format of Xray's statistics |
| `RateLimit`, `Text`, `Encodings`, `Bandwidth`, `Basics` | the handshake cap, UUIDs, key files, certificate framing, the link measurement, shared notions |

`dafny verify dfyconfig.toml` checks everything.

## Where the code and its comments differ

- `services/common/egress.go:155-158` says no packet passes unfiltered while
  the rules go in. That holds exactly when no rule jumped to the chains before
  (`OwnChains.GuardedIffNoJump`); a chain a run that died left jumped to is
  open from its flush until it is refilled (`OwnChains.EmptiedUnguarded`).
- `services/common/egress.go:118-121` says the chains are evaluated before the
  other rules. An up over the table of a run that died does not move a jump
  that is there: it ends up first exactly when it was missing or first
  (`OwnChains.UpJumpsFirstIff`), and behind a rule that accepts, tunnel packets
  pass unfiltered (`Egress.JumpBehindAccept`). What decides in which order is
  stated for every table (`Egress.TunnelForwardInTurn` and its siblings).
- `services/common/egress.go:157-159` says a node that died leaves nothing to
  clean up by hand. Down removes every own chain exactly when no other rule
  jumps to one (`OwnChains.DownRemovesIff`). Runs with the same jumps keep it
  so (`OwnChains.OwnRunsRemovable`), and the tunnel's jumps follow from its
  interface; the proxy's jump carries the account's user id, looked up at
  every start (`services/common/runtime.go:68-86`), so a run under another id
  leaves a jump and the chain behind (`Egress.OtherAccountStays`).
- `services/wireguard/types/ip.go:32-38` steps to the next address only when
  the address has no leading zero byte (`Addresses.NextIsSuccessor`); a pool
  placed on such addresses hands out one (`Pools.LeadingZeroStarves`). No
  default or derived network is one.
- `services/wireguard/wireguard.go:300-346` leaves an address reserved for
  nobody exactly when a key that is held is added again and addresses are left
  (`WireGuard.AddPeerExact`, `WireGuard.AddedTwice`). A handshake does that
  only after an undo of that key failed (`Lifecycle.HeldKeyHasCause`).
- `services/openvpn/openvpn.go:339-360` does not end the connection when the
  kill fails; its counters are then charged to the peer when it is added
  again (`Accounting.LeftOpenIsCarried`). A report counts from registration
  only, exactly when no connection of the name had counted anything then
  (`Accounting.ReportIsSinceIff`).
- `api/session/admit.go:121-122` says bytes not yet reported are counted
  against the allocation; the code counts all bytes served since admission.
  The two agree exactly when nothing was reported since
  (`Allocations.CountedInRunsIff`, `Allocations.ReportedCountsAgain`).
- `node/jobs.go:34-35` says a pass removes peers that used up their
  allocation. Unless the removal fails it does exactly when their upload moved
  since the last pass
  (`Jobs.CapMissedIff`); download alone past the cap keeps the peer
  (`Jobs.DownloadPastCap`).
- `types/session.go:16-25` has the totals never fall below the chain's. The
  usage pass reads the counters before it takes the lock (`node/jobs.go:39-46`),
  and a key admitted again in between gives the new session's row the earlier
  session's bytes; the next reading takes the row back, below what was reported
  (`Crossings.CrossedReportsBelow`). When no pass stores such a reading, no
  report is below the chain (`ChainTotals.ReportsNeverBelowChain`,
  `Crossings.UncrossedIff`).
- `services/hysteria/hysteria.go:377-420` reads before it locks too, and charges
  a peer registered again in between what it moved before
  (`DeltaAccounting.EarlierCounted`). Its counters are the readings taken since
  registration exactly when nothing was added from before
  (`DeltaAccounting.OwnReadingsIff`).

## What is taken as given

- A service's list of peers names the peers that are live when it is read.
- A chain transaction is accepted as a whole or not at all; a report may be
  accepted without the node learning of it.
- `ChainTotals.ReportsNeverBelowChain` takes as given that the readings are
  counters of live peers, which start at zero or above when a peer is added and
  do not fall while it lives; that totals fit in 64 bits; that an admission
  snapshot is still current at commit; and that the chain does not reuse session
  ids. The snapshot cannot be dropped: a row admitted on one the chain has moved
  past starts below it (`ChainTotals.AdmittedCoversIffCurrent`,
  `ChainTotals.SentBelow`).
- OpenVPN has one live connection per certificate; the status read and the
  sum are one step, as are a connection's end and its notification.
- The management server answers commands in order, and only the last line of
  a reply looks like a last line. A write that fails makes all later writes
  fail, so commands never sent stay at the end of the queue.
- An iptables command fails only for its own reasons or because everything
  from some command on fails.

## Model

| member | source | states |
|---|---|---|
| Lifecycle.AlwaysSafe | api/session/admit.go:100-201 | Over every interleaving of handshake queries, commits, usage passes, update passes, reports and restarts, with any operation failing: never more live peers than max_peers, session ids and keys unique, no two live peers with rows share an account and a subscription, and every item of a running update pass still has its row |
| Lifecycle.NextInv | node/jobs.go:38-101 | Each single step of that system keeps the invariant |
| Lifecycle.OrphansHaveCause | api/session/admit.go:168-200 | A live peer without a row exists only because the commit of its own handshake could neither write the row nor take the peer out again |
| Lifecycle.UsagePassSweeps | node/jobs.go:38-101 | A usage pass that read every live peer leaves no rowless peer it had read whose own lookup and removal work, whatever fails for others and with anything between read and store; one that remains appeared after the read by a failed undo |
| ChainTotals.ReportsNeverBelowChain | types/session.go:14-34 | Over whole runs with restarts, no byte total sent for a session is below what the chain then holds, when no pass stores a reading of a key admitted after the reading was taken; readings are live peers' counters, snapshots are current at commit, totals fit in 64 bits and new sessions are new |
| ChainTotals.NextCounted | node/jobs.go:38-82 | Each step keeps a live peer's row at or below its base and counter, and a waiting reading between the two unless its key was admitted since |
| Crossings.CrossedReportsBelow | node/jobs.go:38-46 | Without that condition it fails: a run from start-up, no live peer's counter ever falling, in which a key is admitted again between a reading and its store and a report ends up below the chain |
| Crossings.UncrossedIff | node/jobs.go:38-46 | A pass meets the condition if and only if none of the keys it read was admitted between its read and its store |
| Crossings.MeteredIff | node/jobs.go:66-82 | After a pass a live peer's row whose own lookup and write work is at most its base and counter if and only if the reading moved nothing or is at most the counter |
| Crossings.AboveFalls | node/jobs.go:102-115 | A row above that, already reported, falls below the chain with the next true reading |
| ChainTotals.AdmittedCoversIffCurrent | api/session/admit.go:168-187 | A new row starts at or above the chain if and only if the chain has not moved past the snapshot it was admitted on |
| ChainTotals.SentBelow | node/jobs.go:272-282 | A row that is below the chain and is sent is a report below the chain, so the condition on snapshots cannot be dropped |
| Allocations.CountedIsUnreportedIff | api/session/admit.go:120-135 | What is counted against an allocation for the rows here is at least their unreported bytes, and is just those if and only if nothing was reported since they were admitted |
| Allocations.ReportedCountsAgain | api/session/admit.go:120-135 | A row reported in full has nothing unreported and is counted in full |
| Allocations.CountedInRunsIff | api/session/admit.go:120-135 | After any orderly run the same bound and condition hold of the very rows a handshake counts |
| Lifecycle.HeldKeyHasCause | api/session/admit.go:205-230 | A handshake can add a key the service holds only after an undo of that key failed |
| Readings.RowSince | node/jobs.go:38-46 | After any steps that store no usage the row of a key is the row it had, unless the key was admitted in between: then it is the row of the last admission |
| Readings.ReadingGoesTo | node/jobs.go:38-82 | A reading is credited to the row its peer had when it was taken exactly when the key was not admitted in between; otherwise to the row of the last admission, on top of its base |
| Lifecycle.CheckOneInv | node/jobs.go:148-183 | Checking and retiring one session in the middle of an update pass, after other steps changed the table, keeps the invariant and creates no rowless peer |
| ChainTotals.TransmitOrdered | node/jobs.go:272-316 | Sending any part of the rows a pass kept, acknowledged or not, keeps every row and every row still to be sent at or above the chain |
| ChainTotals.NextOrdered | node/reconcile.go:33-75 | Each orderly step, start-up reconciliation included, keeps rows, pending reports and the log at or above the chain, and the chain at or above what it held when a row was admitted |
| ChainTotals.BootedHolds | node/reconcile.go:33-75 | A node that has just started meets the invariants and has no rowless peer |
| Lifecycle.TransmitMeans | node/jobs.go:272-316 | An applied transaction leaves the chain with exactly the totals it carried and all else as it was; one not applied leaves the chain |
| Lifecycle.RestartMeans | node/reconcile.go:33-75 | A restart ends every peer and pass, keeps the rows exactly when the table could not be read or cleared, and sends the last report exactly when it could be read |
| Admission.AdmittedIff | api/session/admit.go:110-230 | A handshake is admitted if and only if there is room, neither id nor key is taken, the allocation has bytes left and no operation fails; refused for room, id or key it changes nothing |
| Admission.CommitSafe | api/session/admit.go:110-200 | The locked part of a handshake keeps the peer limit, unique ids and keys and one live peer per account and subscription, whichever of its operations fail |
| Admission.EvictionLeavesOne | api/session/admit.go:146-161 | After an admission the new row is the only live one of its account and subscription |
| Admission.EvictedExactly | api/session/admit.go:146-161 | An eviction that went through takes exactly the live peers of the account's rows under the subscription, zero fields of the lookup matching everything |
| Admission.EvictFailsIff | api/session/admit.go:157-161 | An eviction fails if and only if some live peer of the rows cannot be removed cleanly; the first such row ends it, the peers before are gone and those behind are left |
| Admission.CommitOrphans | api/session/admit.go:168-200 | A commit leaves a new rowless peer only when writing the row and the undo both failed, and then only its own |
| Admission.HeldKeyIsOrphan | api/session/admit.go:205-230 | The checks pass a key that is live only when it has no row |
| Admission.SnapshotIff | api/session/admit.go:241-304 | The queries yield a snapshot if and only if the session is active, of the caller and on this node, has bytes left and, with a subscription, that is active and has an allocation |
| Admission.SnapshotCaps | api/session/admit.go:241-304 | A snapshot is given only for an active session of the caller on this node, and its remaining bytes are what max_bytes leaves, saturated, or 0 without max_bytes |
| Admission.SnapshotCarries | api/session/admit.go:241-304 | A snapshot carries the chain's own session, subscription id and allocation, and no allocation without a subscription |
| Admission.AvailableIsTightestCap | api/session/admit.go:119-144 | The stored cap is 0 exactly when neither max_bytes nor an allocation caps the session; otherwise it is the tightest of what max_bytes leaves and what the chain's grant leaves after what the chain and this node count as used, saturated at 64 bits |
| Admission.AdmittedOnAnswersIff | api/session/admit.go:100-200 | In terms of the chain's answers: admitted if and only if there is room, id and key are free, the allocation has bytes left and nothing fails; the row then carries the request's id, key and account, the chain's subscription and totals |
| Admission.QueryRefusals | api/session/admit.go:241-304 | A refusal by the queries is 500 exactly when a needed query was not answered, 404 exactly when something is not there or not active, else 400, and its code names session, subscription, node or bytes |
| Admission.CommitRefusals | api/session/admit.go:100-237 | A refusal under the lock names the first check that fails: room, lookup, taken id or key, bytes, earlier peer, addition |
| Sessions.ClampInt64 | api/session/admit.go:308-317 | The conversion is the identity in range and saturates at 0 and at the largest 64-bit integer |
| Sessions.Lookup | api/session/admit.go:232-237 | The lookup by key finds a row with that key exactly when there is one |
| Sessions.FindInOrder | api/session/admit.go:123-126 | The lookup by subscription and account finds every matching row as often as it is there, in table order |
| Sessions.WithoutInOrder | node/jobs.go:256-259 | Deleting a session takes out its row alone and keeps the others in order |
| Jobs.UsagePassMeans | node/jobs.go:38-112 | With one reading a peer and whatever fails for others, a known peer's row gets the admission totals plus the reading unless the upload did not move or its own lookup or write fails; the peer goes exactly when the upload moved, the reading is past its cap and its own removal is not refused |
| Jobs.PassFailsIff | node/jobs.go:50-100 | A pass reports an error if and only if some reading's own lookup, write or removal fails |
| Jobs.CapMissedIff | node/jobs.go:34-35 | A peer past its cap whose own lookup and removal work is still live after a pass if and only if its upload did not move, and then nothing is stored |
| Jobs.DownloadPastCap | node/jobs.go:107-112 | Download alone past the cap is such a reading |
| Jobs.UsageFrame | node/jobs.go:38-101 | A usage pass adds no peer and changes nothing of a row but its totals |
| Jobs.UsageSafe | node/jobs.go:38-101 | A usage pass keeps every guarantee and creates no rowless peer |
| Jobs.UsageRemovesOrphans | node/jobs.go:60-67 | A peer without a row is live after a pass if and only if it was and it was not read, or its own lookup fails or its removal is refused |
| Jobs.CheckSession | node/jobs.go:187-242 | On every path a session is removed only together with its peer and is then not reported; a failed query skips the report; an unreachable chain removes nothing |
| Jobs.DecisionMeans | node/jobs.go:187-242 | An error exactly when a needed query is not answered; the row goes exactly when session or subscription is over; the report is left out exactly on an error, then, or when nothing changed; the peer stays exactly when both are active as far as known, bytes are left and the chain has not gone without a report since admission |
| Jobs.UpdateKeepsInOrder | node/jobs.go:148-183 | Deleting from the list while going backwards reports exactly the sessions not skipped, in their order, whatever happens to the others |
| Jobs.RetireSafe | node/jobs.go:246-262 | Retiring a session keeps every guarantee, deletes a row only after its peer is gone and creates no rowless peer |
| Jobs.RetireMeans | node/jobs.go:246-262 | Retiring takes the session's peer and no other unless the service refuses, deletes its row and no other unless the peer was not removed cleanly or the deletion fails, and nothing else is an error |
| Jobs.UpdateCuts | node/jobs.go:148-183 | After an update pass a peer is live if and only if it was and no item of its key called for its removal, but for removals the service refused |
| Jobs.UpdateDeletes | node/jobs.go:148-183 | A row is there after an update pass if and only if it was and its session was not to be deleted or could not be; the pass reports an error if and only if something failed for an item |
| Jobs.FinalReportMeans | node/reconcile.go:33-86 | The last report at start-up holds exactly the rows whose session is still active on the chain with other totals |
| Reporting.ReportBounded | node/jobs.go:272-316 | Reporting n sessions sends at least one and at most n + 1 transactions, of those sessions only |
| Reporting.SentInStages | node/jobs.go:264-316 | All sessions go together first; refused, and with a query answered, those not gone go together if fewer, then one by one; nothing more after a transaction of several is taken |
| Reporting.OutageSendsOnce | node/jobs.go:283-301 | A refused batch with no query answered sends one transaction and ends with an error |
| Reporting.AcceptedExactlyOnce | node/jobs.go:272-316 | With atomic batches, if the first batch is taken or one query is answered, each acceptable session is accepted in exactly one transaction and no other in any |
| Reporting.OkMeansSettled | node/jobs.go:272-316 | The pass ends without an error if and only if every session was in an accepted transaction or had ended on the chain |
| NodeOperations.Node.RemovePeerIfExists | context/service.go:39-50 | Removes a live peer in place as its specification says and ignores one that is not there |
| NodeOperations.Node.EvictAll | api/session/admit.go:146-161 | The eviction loop stops at the first failure and leaves the peers of its specification |
| NodeOperations.Node.RemainingBytes | api/session/admit.go:119-144 | The accumulating loop over the rows of the allocation computes the specified cap or error |
| NodeOperations.Node.CommitHandshake | api/session/admit.go:110-200 | The commit, branch by branch in place, has the result and the new peers and rows of its specification |
| NodeOperations.Node.StoreReading | node/jobs.go:52-98 | One reading, in place: an unknown peer removed, totals stored, a spent peer removed, errors collected |
| NodeOperations.Node.SetSessions | node/jobs.go:38-101 | The usage loop equals the specified pass and collects every error without stopping |
| NodeOperations.Node.RetireSession | node/jobs.go:246-262 | Removes the peer first and the row only after that |
| NodeOperations.Node.SweepSessions | node/jobs.go:148-175 | The backward loop with deletion in place equals the specified pass: peers, rows, kept sessions and error |
| NodeOperations.Node.UpdateSessions | node/jobs.go:148-183 | The whole update pass reports exactly the sessions not skipped and fails exactly when a check or the report failed; a table that cannot be read ends it with an error and no change |
| NodeOperations.Node.ReconcileSessions | node/reconcile.go:33-92 | Start-up sends the last report once if it holds anything, goes on whether it was taken or not and clears the table; a table that cannot be read stays as it is |
| NodeOperations.Node.CollectReport | node/reconcile.go:48-62 | The loop over the stored rows collects the last report |
| NodeOperations.AskAgain | node/jobs.go:283-295 | The re-query loop keeps the sessions not ended, in order, and counts the answers |
| NodeOperations.SendSingly | node/jobs.go:308-315 | Each session is sent by itself and a refusal of any is an error |
| NodeOperations.ReportSessions | node/jobs.go:272-316 | The transactions sent and the outcome are those of the specification |
| Addresses.NextIsSuccessor | services/wireguard/types/ip.go:32-38 | The step that copies a big integer over the address is the successor if and only if the successor needs all bytes of the address and does not overflow them |
| Addresses.NextWithLeadingZero | services/wireguard/types/ip.go:32-38 | An address with leading zero bytes for which the step is not the successor |
| Addresses.NextSteps | services/wireguard/types/ip.go:57-63 | The same step on 16 bytes: the successor whenever the first byte is not zero and the top is not reached |
| Addresses.SkipSteps | services/wireguard/types/ip_pool.go:34-36 | The loop over .0 and .255 ends at the first address that is neither, at most two steps on |
| Addresses.SkipProgress | services/wireguard/types/ip_pool.go:34-36 | Each turn of that loop comes closer to such an address, for every address |
| Pools.GetCorrect | services/wireguard/types/ip_pool.go:29-48 | Get hands out an assignable address nobody holds and fails only when every assignable address is reserved, with reserved and available still disjoint, free of duplicates and together exactly the addresses issued |
| Pools.ReleaseCorrect | services/wireguard/types/ip_pool.go:50-58 | Release frees exactly a reserved address and ignores any other |
| Pools.AlwaysValid | services/wireguard/types/ip_pool.go:29-58 | Over every sequence of Get and Release the pool keeps that partition |
| Pools.LeadingZeroStarves | services/wireguard/types/ip_pool.go:86-102 | Over a network of addresses with a zero first byte the pool hands out one address and is full from then on |
| Pools.AddressPool.Take | services/wireguard/types/ip_pool.go:29-48 | Get in place, with the skipping loop, equals its specification |
| Pools.AddressPool.GiveBack | services/wireguard/types/ip_pool.go:104-112 | Release in place equals its specification |
| WireGuard.AddPeerExact | services/wireguard/wireguard.go:300-346 | The reserved addresses stay exactly the live peers' through an attempt to add if and only if the key is not held, the tool fails or a pool has no address left; otherwise an address stays reserved for nobody |
| WireGuard.RemovePeerExact | services/wireguard/wireguard.go:357-376 | Removing a peer frees its addresses and keeps the reserved ones exactly the live peers' |
| WireGuard.AlwaysExact | services/wireguard/wireguard.go:300-376 | Over any sequence of removals and additions of keys not held, tools failing at will, the reserved IPv4 addresses are the live peers', the IPv6 ones too when IPv6 is on and none when it is off, and no two peers share one |
| WireGuard.FullOnlyWhenFull | services/wireguard/types/ip_pool.go:135-149 | On a /24 and a /120 from their third address, lack of an address means at least 253 live peers |
| WireGuard.AddedTwice | services/wireguard/wireguard.go:300-346 | On a fresh service one key added twice leaves an address reserved for nobody |
| WireGuard.DefaultsHaveRoom | types/keys.go:15-16 | On the default networks, after any such sequence, no peer is refused for lack of an address below the 250 peers of types/config.go:28 |
| WireGuard.Service.TakeBoth | services/wireguard/types/ip_pool.go:135-149 | Takes one address of each family or gives the first back |
| WireGuard.Service.Connect | services/wireguard/wireguard.go:300-346 | Adding a peer in place over two pool objects equals its specification, error paths included |
| WireGuard.Service.Disconnect | services/wireguard/wireguard.go:357-376 | Removing a peer in place equals its specification |
| Networks.OverlapIsExact | services/amneziawg/types/subnet.go:75-77 | The test that one network holds the other's base says whether the two share an address, for any two networks |
| Amnezia.TiersDisjoint | services/amneziawg/types/config.go:498-518 | Whenever both tiers' networks are settled the tiers share no address of either family |
| Amnezia.MoveAside | services/amneziawg/types/config.go:508-512 | Of two derived IPv4 networks that overlap, the one moved to the next /24, wrapping at the end of the byte, no longer does |
| Amnezia.UsualPool | services/amneziawg/types/subnet.go:60-68 | The pool over a tier's network starts right after the interface's address and is well placed |
| Amnezia.TiersUsual | services/amneziawg/types/subnet.go:81-126 | Every network a setting or a key can yield starts at its base, has a first byte from 1 to 253 and room for hosts |
| Amnezia.PayloadMatchesTier | services/amneziawg/amneziawg.go:399-402 | Over every sequence of requests, additions and removals, a newly added peer gets the handshake entry of the tier its last request since its last addition asked for, and never the interface's address |
| Amnezia.TakesAsked | services/amneziawg/amneziawg.go:204-250 | The tier of a key's next addition is the one its requests asked for, refused versions not counting |
| Amnezia.AddedToTier | services/amneziawg/amneziawg.go:244-250 | An addition changes the tier it goes to alone and puts a new key there with its addresses |
| Subnets.DerivedBytes | services/amneziawg/types/subnet.go:42-58 | A key gives a 10.x.y.0/24 with x from 11 to 250 and a /120 under fd, from these bytes of its digest |
| Subnets.DerivedSameIff | services/amneziawg/types/subnet.go:42-58 | Two keys give the same networks if and only if their digests agree in seven bytes, the first up to 240 |
| Subnets.PrivateMeans | services/amneziawg/types/subnet.go:117-118 | An address is private if and only if it is in 10/8, 172.16/12, 192.168/16 or fc00::/7 |
| Subnets.ParsedIff | services/amneziawg/types/subnet.go:105-126 | A subnet setting is accepted if and only if it is a private network of its family, /16 to /28 or /64 to /124, and then as the network of the address it names |
| Subnets.TierNetworksIff | services/amneziawg/types/subnet.go:81-100 | A tier has networks if and only if its key is valid and each setting is empty or acceptable; an empty one gives the derived network |
| Subnets.TunnelNetworksIff | services/amneziawg/types/config.go:498-518 | Both tiers are served if and only if they share no address of either family, a derived second IPv4 network that meets the first's having moved to the next /24 |
| Amnezia.RemovedFromItsTier | services/amneziawg/amneziawg.go:258-264 | Removing a key leaves every other peer, and leaves the key exactly when both tiers had it or it is empty |
| Amnezia.AlwaysOneTier | services/amneziawg/amneziawg.go:244-264 | Over every run that adds only keys neither tier holds, a key is in one tier at most and removing it removes it |
| Amnezia.Tiers.ParsePeerRequest | services/amneziawg/amneziawg.go:204-232 | Records the tier asked for and refuses a version not offered |
| Amnezia.Tiers.Connect | services/amneziawg/amneziawg.go:244-250 | Adds the peer to the tier its last request asked for, once, as specified |
| Amnezia.Tiers.Disconnect | services/amneziawg/amneziawg.go:258-264 | Removes the peer from the tier that has it |
| OwnChains.UpInstalls | services/common/egress.go:169-196 | From any table with the built-in chains and no own jump twice, whatever else earlier runs left, up ends with each own chain holding exactly its rules, exactly one of each own jump, and every other rule outside the own chains as it was |
| OwnChains.DownLeaves | services/common/egress.go:200-210 | From any such table whose own chains do not jump to each other, down leaves outside the own chains exactly the rules that are not own jumps, in order, and of the own chains exactly those another rule still jumps to, empty |
| OwnChains.DownRemovesIff | services/common/egress.go:198-210 | Down removes every own chain if and only if every rule outside them that jumps to one is an own jump |
| OwnChains.OwnRunsRemovable | services/common/egress.go:155-168 | Runs with the same jumps, whatever their rules and wherever cut off, leave tables from which down removes every own chain |
| OwnChains.OtherRunRecoverable | services/common/egress.go:155-168 | A run cut off anywhere of chains of the same names with any rules and any jumps leaves a table the next run can start from |
| Egress.OtherAccountStays | services/common/egress.go:359-363 | A table left by a proxy run under another user id: down leaves that run's jump and with it the chain, and up leaves the jump too |
| Egress.TunnelGuardedIff | services/common/egress.go:155-196 | For the tunnel chains the condition for filtering on the way of an up is exact, with no further assumption on the table |
| Egress.ProxyGuardedIff | services/common/egress.go:155-196 | The same for the proxy chain |
| OwnChains.CutOffRecoverable | services/common/egress.go:155-210 | Any part of any up or down keeps own jumps single and every rule outside the own chains that is not an own jump, in order |
| OwnChains.GuardedFromScratch | services/common/egress.go:155-196 | When no rule jumped to an own chain, every own chain that is jumped to holds all its rules in every table on the way |
| OwnChains.GuardedIffNoJump | services/common/egress.go:155-196 | That holds on the way of an up if and only if no rule jumped to an own chain to begin with |
| OwnChains.EmptiedUnguarded | services/common/egress.go:169-179 | A chain that is jumped to stands empty, and so open, after the step that empties it |
| KernelTables.Tool.RunUp | services/common/egress.go:169-196 | Up in place, cut off at any command: the table is that of a number of its steps, all of them exactly when no error is returned, and none is returned when commands suffice and the built-in chains exist |
| KernelTables.Tool.RunDown | services/common/egress.go:200-210 | Down in place carries out exactly as many of its steps as there are commands left |
| KernelTables.UpAll | services/common/egress.go:169-196 | Over the address families the first error stops up; earlier families are complete and later ones untouched; there is no error when commands suffice and the built-in chains exist |
| KernelTables.Tool.EmptyChain | services/common/egress.go:171-179 | Creates a chain or empties the one that is there |
| KernelTables.Tool.AddJump | services/common/egress.go:186-193 | Inserts a jump exactly when it is missing |
| Egress.ForwardPolicy | services/common/egress.go:228-243 | First match over the generated forward rules drops exactly same-tunnel, blocked-network and disallowed port-25 packets and lets the rest on |
| Egress.InputPolicy | services/common/egress.go:244-255 | First match over the input rules accepts exactly replies, resolver DNS of the family and the API port, and drops the rest |
| Egress.ProxyPolicy | services/common/egress.go:324-366 | First match over the proxy rules, as one stated decision for every packet |
| Egress.ProxyNeverIntoBlocked | services/common/egress.go:277-366 | No new packet is accepted into a blocked network but resolver DNS or a declared loopback port |
| Egress.PoliciesAgree | services/common/egress.go:228-262 | The two policies agree on every new packet to a non-local destination outside the exceptions that does not go back into the tunnel |
| Egress.TunnelUpEnforces | services/common/egress.go:265-267 | After up on any recoverable table the installed chains decide every packet by the stated policy |
| Egress.TunnelForwardInTurn | services/common/egress.go:107-121 | After an up over any recoverable table, the rules of FORWARD in front of the jump decide first, then the policy drops what it drops, then the rules behind decide; none stands in front if and only if the jump was missing or first |
| Egress.TunnelInputInTurn | services/common/egress.go:107-121 | The same for INPUT, which decides every tunnel packet that reaches the jump by the policy alone |
| Egress.ProxyPolicyInTurn | services/common/egress.go:277-288 | The same for the proxy account's packets in OUTPUT |
| Egress.JumpBehindAccept | services/common/egress.go:186-193 | A jump left behind a rule that accepts everything stays there, and a tunnel packet into a blocked network passes after the up |
| OwnChains.UpJumpsFirstIff | services/common/egress.go:186-193 | Up leaves a jump where it stood or puts it at the top; it ends up first of its built-in chain if and only if it was missing or first |
| Egress.ProxyChainsWellFormed | services/common/egress.go:324-366 | The proxy chain is one chain with its rules in order and one jump, so installing and removing it have the properties above |
| Egress.FamiliesBlockSpecial | services/common/egress.go:141-148 | For whatever families the kernel has, exactly the special addresses of the family are blocked |
| Egress.FamiliesCover | services/common/egress.go:141-153 | Every IPv4 address has its rules, and every IPv6 address if and only if the kernel has IPv6 |
| Egress.ChainNames | services/common/egress.go:126-129 | Chain names fit 28 characters for any interface name and tell interfaces apart |
| Egress.BlockedV4Octets | services/common/egress.go:23-36 | The IPv4 list blocks an address if and only if its octets are in the special-purpose ranges |
| Egress.BlockedV6Octets | services/common/egress.go:37-43 | The IPv6 list blocks an address if and only if it is unspecified, loopback, unique local, link-local or multicast |
| Management.EachGetsItsReply | services/openvpn/management.go:83-151 | However commands, timeouts, notifications and in-order replies interleave, commands finish in the order asked, each with exactly its own reply lines, and all have finished when all lines have come |
| Management.QueueFollows | services/openvpn/management.go:117-151 | At every moment the queue is the lines so far dealt out to the commands in order |
| Management.DealtOwn | services/openvpn/management.go:117-151 | A finished command has its whole reply, the next one a part of its own, the rest nothing |
| Management.HeadTakes | services/openvpn/management.go:130-147 | A line goes to the command at the head: SUCCESS or ERROR finishes it, END finishes it exactly when it asked for a list, any other line leaves it there |
| Management.ReadsProtocol | services/openvpn/management.go:124-141 | The reader tells apart the protocol's last lines and notifications by their text |
| Management.StatusReplies | services/openvpn/management.go:141-141 | A SUCCESS or ERROR line by itself is a reply |
| Management.ListReplies | services/openvpn/management.go:141-141 | Rows followed by END are a reply to a list command |
| Management.EffectsFollow | services/openvpn/management.go:117-135 | Commands and replies do not disturb the notifications: their effects are those of their complete blocks |
| ClientEvents.ReadingIsBlocks | services/openvpn/management.go:164-195 | Reading line by line has exactly the effects of the complete blocks, in order, with the header's ids and the values set before the END |
| ClientEvents.OneVerdictEach | services/openvpn/management.go:197-210 | Each complete CONNECT or REAUTH block yields exactly one verdict, with its own cid and kid, by whether the common name it last sets, or else its certificate's, is registered at that moment |
| ClientEvents.OneLeftEach | services/openvpn/management.go:211-216 | Each complete DISCONNECT block banks once, for that name, the numbers it last gives as received and as sent |
| ClientEvents.NoOtherEffect | services/openvpn/management.go:197-218 | Any other block, and any line that ends none, has no effect |
| ClientEvents.ParseIntOfDecimal | services/openvpn/management.go:213-214 | A number's decimal text, signed or not, is read as the number, saturated at 64 bits |
| ClientEvents.ParseIntOfOther | services/openvpn/management.go:213-214 | Any text that is no number is read as 0 |
| ClientEvents.LastSetWins | services/openvpn/management.go:184-188 | A name's value in a block is the last one set in it |
| ClientEvents.HeaderLine | services/openvpn/management.go:164-177 | A header line as the server writes it is read as its kind, cid and kid, with or without a kid |
| ClientEvents.EnvLine | services/openvpn/management.go:178-188 | An environment line is read as its name and value, whatever the value holds |
| ClientEvents.EndLine | services/openvpn/management.go:178-183 | The END line is read as the end of the block |
| ClientEvents.OtherLine | services/openvpn/management.go:165-194 | Lines of other kinds, and settings without a value, mean nothing |
| ClientEvents.BlockIsRead | services/openvpn/management.go:164-195 | A notification written out as lines is read as one complete block with its ids and settings |
| Banking.DisconnectIsRead | services/openvpn/management.go:197-218 | Reading the text of a DISCONNECT banks exactly the counters it tells, each saturated at 64 bits |
| Banking.EndIsBanked | services/openvpn/openvpn.go:267-282 | The end of a live connection, as text, has exactly the effect the accounting gives it, upload being what the server received |
| Banking.StatusIsRead | services/openvpn/management.go:228-246 | The table of connections is read back row by row, counters saturated at 64 bits, whatever other lines are among them |
| Banking.ReadStatus | services/openvpn/management.go:228-246 | The loop over the lines of a status reply keeps exactly the connections' rows |
| Banking.ReportFromStatus | services/openvpn/openvpn.go:364-399 | A report made from the server's table is the one made from the live connections themselves |
| Management.Connection.Send | services/openvpn/management.go:83-96 | Queues a command behind those before it |
| Management.Connection.Notify | services/openvpn/management.go:164-195 | Handles one notification line in place as specified |
| Management.Connection.Finish | services/openvpn/management.go:197-217 | Answers or banks a complete notification as specified |
| Management.Connection.Take | services/openvpn/management.go:117-149 | One turn of the read loop: routes a notification, or gives the line to the command at the head |
| Management.Connection.Read | services/openvpn/management.go:117-151 | The read loop over any lines, each settled by the names registered when it comes |
| Accounting.AlwaysBalanced | services/openvpn/openvpn.go:267-282 | Over every run a registered peer's banked and live traffic together are what it moved since it was registered, plus what a connection still open from before had counted then |
| Accounting.ReportsTotal | services/openvpn/openvpn.go:364-399 | What is reported is that total in 64 bits |
| Accounting.ReportNeverDecreases | services/openvpn/openvpn.go:364-399 | While a peer stays registered its report never falls over disconnects and reconnects |
| Accounting.CarriedFromThen | services/openvpn/openvpn.go:299-360 | A registered peer has a last registration, was not removed since, and carries exactly what a live connection of its name had counted at that moment |
| Accounting.ReportIsSinceIff | services/openvpn/openvpn.go:364-399 | A report is exactly what the peer moved since it was registered if and only if no connection of its name had counted anything at that registration |
| Accounting.NothingCarried | services/openvpn/openvpn.go:339-360 | When removing this peer always ended its connection, nothing is carried over |
| Accounting.LeftOpenIsCarried | services/openvpn/openvpn.go:339-360 | A connection that outlives the removal is charged to the peer when it is added again |
| Accounting.AlwaysConsistent | services/openvpn/openvpn.go:299-360 | Names, banked traffic and peers are of the same ids in every state |
| Accounting.OpenVpn.Register | services/openvpn/openvpn.go:299-331 | Registering in place as specified; data that is no UUID or a certificate that fails changes nothing |
| Accounting.OpenVpn.Unregister | services/openvpn/openvpn.go:339-355 | Forgetting a peer in place as specified |
| Accounting.OpenVpn.Disconnected | services/openvpn/openvpn.go:267-282 | Banks for a known name in place, received as upload and sent as download |
| Accounting.OpenVpn.Used | services/openvpn/openvpn.go:381-394 | The loop over the names adds the live row of exactly the peer's own name |
| Accounting.OpenVpn.Peers | services/openvpn/openvpn.go:364-399 | Every registered peer, and no other, is reported with its specified total |
| DeltaAccounting.CountersAreSums | services/hysteria/hysteria.go:377-420 | Over every run, registrations and removals between a reading and its sum included, a registered peer's counters are the sum of the readings added since it was registered, in 64 bits |
| DeltaAccounting.OwnReadingsIff | services/hysteria/hysteria.go:377-420 | That is the sum of the readings taken since the registration if and only if what came from before is nothing; what came from before is nothing or what the reading waiting at registration had for the peer |
| DeltaAccounting.LostAddsNothing | services/hysteria/hysteria.go:377-399 | A reading that is lost, or was added already, is not added |
| DeltaAccounting.EarlierCounted | services/hysteria/hysteria.go:377-407 | A peer removed and registered again between a reading and its sum is charged what it moved before |
| DeltaAccounting.AlwaysMatched | services/hysteria/hysteria.go:321-360 | In every state passwords, peers and counters are of the same ids |
| DeltaAccounting.Books.Authenticate | services/hysteria/hysteria.go:282-307 | A password is accepted if and only if it is the UUID of a registered peer, as that peer |
| DeltaAccounting.Books.Register | services/hysteria/hysteria.go:321-339 | Registering in place as specified |
| DeltaAccounting.Books.Unregister | services/hysteria/hysteria.go:347-360 | Forgetting in place as specified |
| DeltaAccounting.Books.AddReading | services/hysteria/hysteria.go:402-407 | The loop raises the counters of known peers by their deltas and no others |
| DeltaAccounting.Books.Peers | services/hysteria/hysteria.go:377-420 | Reports every peer's counter after the reading; a failed reading changes nothing |
| Statistics.TableRoundTrip | services/xray/wire.go:155-189 | Parsing the encoding of any list of stats gives the last value of every name |
| Statistics.StatRoundTrip | services/xray/wire.go:191-222 | Parsing the encoding of a stat, default values left out, gives it back, negative values included |
| Statistics.UnknownInTable | services/xray/wire.go:165-173 | Inserting a whole unknown field between fields of the message changes nothing, for all bytes around it |
| Statistics.UnknownInStat | services/xray/wire.go:212-218 | The same within a stat |
| Statistics.UnknownInside | services/xray/wire.go:155-222 | The same for a stat within any table, its length prefix grown |
| Statistics.WrittenIsUnknown | services/xray/wire.go:165-173 | Every field a writer can produce under another number or type, groups nested to the limit included, is such a field |
| Statistics.ParseTableAppend | services/xray/wire.go:155-189 | Whole fields followed by anything are read one after the other |
| Statistics.TableField | services/xray/wire.go:158-186 | Every turn of the loop uses up at least one byte and stays within the message |
| Statistics.StatField | services/xray/wire.go:192-219 | The same for a stat |
| Statistics.ReadTable | services/xray/wire.go:155-189 | The loop computes the specified table or error |
| Statistics.ReadStat | services/xray/wire.go:191-222 | The loop computes the specified stat or error |
| Wire.VarintRoundTrip | services/xray/wire.go:206-211 | Reading a written varint gives its value and end, for every 64-bit value |
| Wire.WrittenIsSkipped | services/xray/wire.go:212-218 | Skipping the value of any writable field ends exactly behind it |
| RateLimit.LimitPerWindow | api/session/guard.go:65-84 | On every trace with a clock that does not go back, a key is admitted at most limit times in a window |
| RateLimit.AdmittedIffLeft | api/session/guard.go:76-83 | An attempt is admitted if and only if its key has admissions left in its window |
| RateLimit.TwiceInAnySpan | api/session/guard.go:65-84 | In any span of a window's length a key is admitted at most twice limit times |
| RateLimit.HandshakesPerMinute | api/session/guard.go:40-43 | With the handshake limits: at most sixty in any minute |
| RateLimit.FirstOnce | api/session/guard.go:76-80 | At most one refusal in a window is flagged first |
| RateLimit.RetryReachesPast | api/session/guard.go:107-112 | Retry-After (section 10.2.3 of RFC 9110) reaches past the window's end, by at most a second |
| RateLimit.WindowsApart | api/session/guard.go:70-75 | Windows follow each other at least a window's length apart |
| RateLimit.RateLimiter.Try | api/session/guard.go:65-84 | The counter in place equals its specification |
| Encodings.ParseFormat | services/common/uuid.go:99-103 | Parsing the text of a UUID gives the UUID back |
| Encodings.FormatParse | services/common/uuid.go:80-96 | Formatting a parsed UUID gives the text in lower case, so a UUID is written one way up to case (section 4 of RFC 9562) |
| Encodings.KeyFileRoundTrip | services/openvpn/pki.go:246-266 | Parsing a written static key file gives the key back, for every 256-byte key |
| Encodings.WriteKeyFile | services/openvpn/pki.go:234-244 | The writing loop produces the file of lines of 32 digits between the marks |
| Encodings.ReadKeyFile | services/openvpn/pki.go:246-266 | The reading loop keeps exactly the lines between the marks that are not blank or comments, and accepts 256 bytes only |
| Encodings.FrameRoundTrip | services/openvpn/handshake.go:74-96 | The client gets back its certificate and key if and only if the certificate's length is from 1 to 2^32 - 1 |
| Encodings.UnframeIff | services/openvpn/handshake.go:74-96 | Exactly the framed results are taken apart, into what was framed |
| Encodings.TrimPadded | services/openvpn/pki.go:250-250 | Blanks around a line of a key file do not matter |
| Encodings.KeyLength | services/openvpn/pki.go:261-264 | A key file is read as 256 bytes or not at all |
| Text.HexValues | services/openvpn/pki.go:261-262 | Exactly the sixteen digits are read, in either case, as their place |
| Bandwidth.Measure | libs/bandwidth/bandwidth.go:210-318 | For every prober: the servers found by pinging batches of the nearest until done, by latency; of those the first five of different sites clearing 2 ms or, when none does, 1 ms; of those the ones tested until there was enough or it was stopped, at most three samples; each direction reports the lowest sample, rounded down; no sample, no figure |
| Bandwidth.Shortlist | libs/bandwidth/bandwidth.go:323-342 | The loop picks the first five servers that clear the floor and are the nearest of their site |
| Bandwidth.PickedApart | libs/bandwidth/bandwidth.go:323-342 | Picked servers clear the floor and are of different sites |
| Bandwidth.TestServers | libs/bandwidth/bandwidth.go:276-297 | Tests go on exactly until there is enough or the measurement is stopped |
| Bandwidth.RefineLatency | libs/bandwidth/bandwidth.go:236-253 | Batches of ten are pinged, up to thirty servers, until three clear the floor or it is stopped |
| Bandwidth.Agreed | libs/bandwidth/bandwidth.go:361-373 | The comparison of smallest and largest says whether every two samples agree |
| Bandwidth.Lowest | libs/bandwidth/bandwidth.go:376-385 | The smallest rate of each direction, one of the samples' |
| Bandwidth.ByLatencyOrders | libs/bandwidth/bandwidth.go:355-357 | The order by latency is a rearrangement and sorted |
| Bandwidth.ByLatencyStable | libs/bandwidth/bandwidth.go:355-357 | Servers of equal latency keep their order |
| Bandwidth.NearMeans | libs/bandwidth/bandwidth.go:210-235 | The servers pinged are those of the listing that answered, each as often as listed, by latency |
| Bandwidth.BatchesCover | libs/bandwidth/bandwidth.go:236-253 | Batches are of ten and together the nearest thirty servers, in order |
| Bandwidth.PingedExactly | libs/bandwidth/bandwidth.go:236-253 | A batch keeps exactly the servers whose latencies were both found |
| Bandwidth.SampleCounts | libs/bandwidth/bandwidth.go:276-297 | A server's sample counts exactly when both its rates are above zero |

## Left out

- Session durations: rows carry byte totals only.
- Chain client, transaction signing, gas and retries: the chain is its answers.
- The database: the table is a sequence of rows with the lookups the code makes; soft deletion and compaction are not modelled.
- Locks: what runs under one lock is one step, what does not is separate steps.
- HTTP handlers, JSON shapes, logging and the status document.
- Cryptography: key digests and certificates are given bytes.
- Text of CIDRs, addresses and iptables arguments: the model starts at parsed addresses, networks and rules. IPv4 addresses written as IPv6 are not modelled.
- Base64 of peer data: peers are told apart by the data itself.
- Verdict texts: a verdict is its ids and whether it admits.
- Request encoders of the Xray API; only the statistics reply is parsed.
- The cache of the link measurement and the declared bandwidth.
- Client blocks of the handshake cap: keys are given as text.
- The float rounding of `Duration.Seconds` in Retry-After and of rates: whole division and reals.
- Services without accounting or address state of their own (Xray users, V2Ray, sockets, configuration files).
