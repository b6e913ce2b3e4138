# Interledger.rs: verified models of routing, payments, packets and settlement

This project models the stateful and arithmetic parts of the Interledger.rs connector and proves what they
are for. Verify with `dafny verify dfyconfig.toml` (Dafny 4.11).

**CCP route synchronisation** (`Text`, `CcpTypes`, `RouteLog`, `RoutingTables`, `BestRoutes`, `Sync`,
`SyncProgress`, `RouteManagers`, `BatchUpdates`, `Network`, `Forwarding`, `Scope`). A node keeps a forwarding table,
an epoch counter and a log of deltas, and sends merged deltas for epoch ranges. `RouteLog` gives a stretch of log its
meaning (replay) and shows that merged deltas have that meaning and that overlapping ranges are absorbed. `Sync` is
the protocol between one sender and one receiver, with the receiver's filter, over a network that may lose, repeat and
reorder; `SyncProgress` says what it achieves. `RouteManagers` is one node with all its tables, as a class and as a
value. `BatchUpdates` says exactly when a batch of checked prefixes leaves a prefix with its best account, and
`Forwarding` which moves reach the forwarding table and the log. `Network` and `Scope` run any number of nodes and show
loop freedom, what can be announced to whom, and when a log stays the replay of its table.

**STREAM payments** (`Congestion`, `StreamPayments`, `PacketSizes`, `Throttling`). One payment with many packets in
flight; replies are arbitrary interleaved steps. Amounts are 64-bit with wrapping and saturating arithmetic written
out; rates are exact. `PacketSizes` says what a packet carries, `Throttling` how the window and the packet limit move
over a whole payment.

**Packets** (`Oer`, `Codec`, `Utf8`, `Addresses`, `CcpPackets`, `CcpCanonical`, `CcpCodec`, `BtpPackets`, `IlpPackets`,
`IlpReplies`, `IlpBuffers`, `WireFormats`). Length determinants and integers of Interledger RFC 30, nested CCP requests, BTP
frames of Interledger RFC 23 and ILPv4 packets of Interledger RFC 27. The `strict` build feature is a flag, so every
round trip is proved for both builds and canonicity for the strict one; `WireFormats` fixes where every byte stands.

**Settlement and balances** (`DelayedSettlement`, `Balances`, `BalanceHistories`). The map beside the delay queue under
any interleaving of commands and expiries, and account balances under any interleaving of requests and tasks.
`BalanceHistories` says when money moves and when it comes back.

Conventions. A Rust string is its bytes. Code that updates fields is a class whose methods are proved equal to
a function on values (`Snapshot() == F(old(Snapshot()), ...)`); the theorems are about those functions and
about runs built from them. Hash-map iteration takes elements in an arbitrary order. SHA-256 is a function
parameter. Replies, losses, clocks, quoted prices, the queue's choice of keys and the answers of the store and
the settlement engine are steps or parameters.

Assumptions that appear as preconditions:

- Node addresses are fixed and distinct in a run (`Network`).
- A receiver starts fresh (`Sync`); `RestartLeavesUnnamedRoutes` says exactly when leftovers of an older table matter.
- A random condition is never fulfilled, and an F08 answer reports a nonzero amount (`StreamPayments`).
- The date library writes 17 digits for the instants it covers, reads them back to the millisecond, and only
  reads whole milliseconds (`Lawful` in `IlpPackets`).

## Model

| member | source | states |
|---|---|---|
| `Sync.ReceiverHoldsReplayAt` | interledger-rs/crates/interledger-ccp/src/server.rs:316-345 | in every run over a network that loses, repeats and reorders updates, whatever the filter drops: at epoch k > 0 the receiver holds for each prefix exactly what the sender's own prefix and log entries 0..k leave there, unless the filter drops that route, and every route it holds was announced in those epochs, kept by the filter and leads to the peer |
| `Sync.DroppedPrefixIsNeverHeld` | interledger-rs/crates/interledger-ccp/src/server.rs:316-345 | in every run, a prefix of which the filter drops every announcement is not in the table |
| `Sync.ReceiverHoldsReplay` | interledger-rs/crates/interledger-ccp/src/server.rs:786-860 | in every run a receiver at epoch k > 0 holds exactly the sender's own prefix followed by log entries 0..k if and only if its filter keeps every route of that view |
| `Sync.OneRoundTripResynchronises` | interledger-rs/crates/interledger-ccp/src/server.rs:438-468 | answering any control request of the run now brings the receiver to the sender's epoch and, prefix by prefix, to its current view as far as the filter lets it through; to the whole view if and only if the filter keeps all of it |
| `Sync.ReplyIsNeverAGap` | interledger-rs/crates/interledger-ccp/src/server.rs:279-289 | the answer to a control request is accepted whatever arrives before it and whatever is filtered, and afterwards the epoch is at least the answer's `to` and never lower than it was |
| `Sync.AcceptedUpdateCatchesUp` | interledger-rs/crates/interledger-ccp/src/routing_table.rs:120-188 | an update beyond the receiver's epoch is a gap, one behind it changes nothing, and one with from <= k <= to leads to the sender's view at `to` as far as the filter lets it through |
| `Sync.UnfilteredSenderIsHeldInFull` | interledger-rs/crates/interledger-ccp/src/server.rs:786-860 | in every run, a sender whose announcements all pass the filter is held in full |
| `Sync.ShownTableIsView` | interledger-rs/crates/interledger-ccp/src/server.rs:316-345 | a table that agrees with a view wherever the filter lets it is that view if and only if all of the view is kept |
| `Sync.EpochNext` | interledger-rs/crates/interledger-ccp/src/routing_table.rs:120-152 | one step of sender, network or receiver keeps the epochs in order (messages cut from the log, answers at or below the receiver's epoch) and never lowers the receiver's epoch |
| `Sync.ArrivalKeepsEpochs` | interledger-rs/crates/interledger-ccp/src/routing_table.rs:120-188 | an arriving update is a gap exactly if it starts beyond the receiver's epoch, and otherwise takes the epoch at least to its end |
| `Sync.RunKeepsEpochInv` | interledger-rs/crates/interledger-ccp/src/routing_table.rs:120-152 | every run keeps the epochs in order, filtered or not |
| `Sync.RunKeepsInv` | interledger-rs/crates/interledger-ccp/src/routing_table.rs:125-152 | every run keeps the epochs in order and the table in agreement with the sender's log as far as the filter lets it through |
| `Sync.NextKeepsInv` | interledger-rs/crates/interledger-ccp/src/routing_table.rs:120-188 | one step keeps both |
| `Sync.FilteredUpdateAt` | interledger-rs/crates/interledger-ccp/src/routing_table.rs:160-188 | what a merged, then filtered range does to one prefix: its last kept announcement is stored, a last withdrawal removes it, no change leaves it, and nothing else appears |
| `Sync.LastInRange` | interledger-rs/crates/interledger-ccp/src/server.rs:786-860 | the last change of a prefix up to `to` is its last change inside the range, or else its last change up to any epoch inside the range |
| `Sync.RestartLeavesUnnamedRoutes` | interledger-rs/crates/interledger-ccp/src/routing_table.rs:125-133 | after a table id change a full update leads to the sender's view if and only if it names every prefix still held from the old table |
| `Sync.FilteredRangeCanHideWithdrawals` | interledger-rs/crates/interledger-ccp/src/server.rs:316-345 | a filtered merged range equals the filtered epochs one by one if and only if no held prefix had its withdrawal cancelled by an announcement the filter drops |
| `SyncProgress.AnnouncedRouteIsLearned` | interledger-rs/crates/interledger-ccp/src/server.rs:316-396 | an update that is neither a gap nor stale moves the table to its last epoch, and the last route it announces for a prefix is stored under the peer unless it is in another scheme, is the scheme itself, lies at or below our address, or was here before |
| `SyncProgress.RefusedRouteIsNotLearned` | interledger-rs/crates/interledger-ccp/src/server.rs:316-396 | a prefix of which every announcement has one of these four reasons against it stays as it was, or goes away if it is withdrawn |
| `SyncProgress.GapIsAskedFor` | interledger-rs/crates/interledger-ccp/src/server.rs:438-468 | in every run a receiver that notices a gap asks for exactly what it is missing, and the answer brings it to the sender's epoch |
| `SyncProgress.AnswerCarriesOnlyWhatIsNew` | interledger-rs/crates/interledger-ccp/src/server.rs:279-289 | the answer to a peer that knows our table at epoch k > 0 covers exactly the epochs since k and names only prefixes that changed in them; a peer that is up to date gets nothing |
| `SyncProgress.StrangerIsToldEverything` | interledger-rs/crates/interledger-ccp/src/server.rs:279-289 | any other peer is told our own prefix and every route that is still announced, from epoch 0 |
| `SyncProgress.BroadcastIsHeard` | interledger-rs/crates/interledger-ccp/src/server.rs:686-691 | a receiver that has heard every broadcast so far and hears the next one has heard everything: no gap, nothing asked for, and the broadcast covers exactly the epochs since the last one |
| `SyncProgress.StartAsksForEverything` | interledger-rs/crates/interledger-ccp/src/server.rs:222-234 | a node that starts asks for everything from epoch 0 |
| `SyncProgress.MergeAnnounces` | interledger-rs/crates/interledger-ccp/src/server.rs:799-848 | a route is announced by a merged range exactly if some change adds it and no later one withdraws its prefix |
| `SyncProgress.MergeWithdraws` | interledger-rs/crates/interledger-ccp/src/server.rs:799-848 | a prefix is withdrawn exactly if some change withdraws it and no later one adds it |
| `SyncProgress.EpochWithdrawsLast` | interledger-rs/crates/interledger-ccp/src/server.rs:819-848 | within one epoch withdrawals come after announcements |
| `SyncProgress.RangeIsSkipTake` | interledger-rs/crates/interledger-ccp/src/server.rs:815-822 | a range holds exactly the existing epochs from its start to before its end, however the two lie |
| `RouteLog.OverlapIsAbsorbed` | interledger-rs/crates/interledger-ccp/src/server.rs:786-860 | replaying a range with from <= k <= to on the view at epoch k gives exactly the view at epoch `to` |
| `RouteLog.ReplayAbsorbs` | interledger-rs/crates/interledger-ccp/src/routing_table.rs:166-179 | replaying a + b on top of a gives what a + b alone gives, for any view and any changes |
| `RouteLog.ReplayAt` | interledger-rs/crates/interledger-ccp/src/routing_table.rs:166-179 | after a replay each prefix holds what its last change says; prefixes without a change keep their route |
| `RouteLog.MergeMeansReplay` | interledger-rs/crates/interledger-ccp/src/server.rs:799-848 | applying a merged delta (withdrawals, then additions in order) to any view equals replaying every change it covers |
| `RouteLog.MergeKeepsLast` | interledger-rs/crates/interledger-ccp/src/server.rs:799-848 | for each prefix the merged delta keeps exactly the last change: both directions, for announcements and withdrawals |
| `RouteLog.MergeNames` | interledger-rs/crates/interledger-ccp/src/server.rs:799-848 | a prefix is announced (withdrawn) by the merged delta exactly if its last change adds (withdraws) it |
| `RouteLog.MergeIsDisjoint` | interledger-rs/crates/interledger-ccp/src/server.rs:799-848 | no prefix is both announced and withdrawn by one merged delta |
| `RouteLog.MergeComposes` | interledger-rs/crates/interledger-ccp/src/server.rs:786-860 | merge(i..j) followed by merge(j..k) acts as merge(i..k) on every view |
| `RouteLog.StaleRoutesSurviveUnlessNamed` | interledger-rs/crates/interledger-ccp/src/routing_table.rs:125-133 | a merged delta applied to leftover routes gives the sender's view if and only if it names every leftover prefix |
| `RouteLog.KeepCommutesWithMerge` | interledger-rs/crates/interledger-ccp/src/server.rs:316-345 | filtering commutes with merging for announcements, and filtering first can only add withdrawals |
| `RouteLog.FilterAfterMerge` | interledger-rs/crates/interledger-ccp/src/server.rs:316-345 | filtering after merging means the same as filtering every epoch if and only if no held prefix lost its withdrawal to a dropped announcement |
| `RouteLog.DroppedReaddHidesWithdrawal` | interledger-rs/crates/interledger-ccp/src/server.rs:316-345 | the failing family: withdraw then re-announce by a dropped route leaves the receiver with a route the sender gave up |
| `RoutingTables.ResolveIsLongestMatch` | interledger-rs/crates/interledger-ccp/src/routing_table.rs:30-37 | a longest match is unique and is what `resolve` returns; there is no answer exactly if no key is a prefix of the address |
| `RoutingTables.ChangedPrefixes` | interledger-rs/crates/interledger-ccp/src/routing_table.rs:154-188 | the reported prefixes are exactly those withdrawn while held or announced while absent; all others are present after the update exactly if they were before |
| `RoutingTables.AcceptIsApplyDelta` | interledger-rs/crates/interledger-ccp/src/routing_table.rs:160-188 | an accepted update acts on the table exactly as its delta acts on the view without next hops |
| `RoutingTables.RoutingTable.constructor` | interledger-rs/crates/interledger-ccp/src/routing_table.rs:55-62 | a new table has the given id, epoch 0 and no routes |
| `RoutingTables.RoutingTable.IncrementEpoch` | interledger-rs/crates/interledger-ccp/src/routing_table.rs:82-87 | returns the epoch before and raises it by one; id and routes stay |
| `RoutingTables.RoutingTable.SetRoute` | interledger-rs/crates/interledger-ccp/src/routing_table.rs:89-93 | the prefix now leads to the given account and route; nothing else changes |
| `RoutingTables.RoutingTable.DeleteRoute` | interledger-rs/crates/interledger-ccp/src/routing_table.rs:95-97 | the prefix is gone, the answer says whether it was there |
| `RoutingTables.RoutingTable.AddRoute` | interledger-rs/crates/interledger-ccp/src/routing_table.rs:100-104 | the route is stored under its own prefix, the answer says whether the prefix was absent |
| `RoutingTables.RoutingTable.GetRoute` | interledger-rs/crates/interledger-ccp/src/routing_table.rs:106-108 | scanning the map in an arbitrary order finds the unique longest match |
| `RoutingTables.RoutingTable.RemoveWithdrawn` | interledger-rs/crates/interledger-ccp/src/routing_table.rs:168-172 | the loop deletes the withdrawn prefixes and reports, in order, those that were there |
| `RoutingTables.RoutingTable.InsertAnnounced` | interledger-rs/crates/interledger-ccp/src/routing_table.rs:174-179 | the loop stores the announced routes under their own prefixes and reports, in order, those that were absent |
| `RoutingTables.RoutingTable.HandleUpdateRequest` | interledger-rs/crates/interledger-ccp/src/routing_table.rs:120-188 | the loops over withdrawals and announcements compute the specified new table and outcome, gap and stale cases included |
| `BestRoutes.GetBestRouteForPrefix` | interledger-rs/crates/interledger-ccp/src/server.rs:893-968 | whatever order the hash maps yield, the result is the order-free best route: longest configured dot-segment prefix, then exact local route, then the unique best candidate |
| `BestRoutes.ConfiguredRouteWins` | interledger-rs/crates/interledger-ccp/src/server.rs:904-918 | whatever local and received routes there are, the longest configured prefix that is the wanted one cut at a dot gives the account and an empty path |
| `BestRoutes.LocalRouteIsNext` | interledger-rs/crates/interledger-ccp/src/server.rs:920-930 | without a configured one, a local route for exactly the wanted prefix is chosen |
| `BestRoutes.ReceivedRouteIsPreferred` | interledger-rs/crates/interledger-ccp/src/server.rs:932-966 | without either there is a route exactly if some peer offers one, and it is the offered one preferred over every other: child before peer before parent before others, then the shorter path, then the id that comes first in the dictionary |
| `BestRoutes.ConfiguredIsLongest` | interledger-rs/crates/interledger-ccp/src/server.rs:904-918 | a configured route applies exactly if a configured prefix is the wanted prefix cut at a dot, and then the longest such prefix wins |
| `BestRoutes.BestIsUnique` | interledger-rs/crates/interledger-ccp/src/server.rs:935-963 | among candidates of distinct accounts at most one beats all others |
| `BestRoutes.BeatsIsTotal` | interledger-rs/crates/interledger-ccp/src/server.rs:939-961 | relation, then shorter path, then smaller id decides between any two accounts |
| `BestRoutes.BeatsIsTransitive` | interledger-rs/crates/interledger-ccp/src/server.rs:939-961 | the comparison is transitive |
| `BestRoutes.FoldBestInAnyOrder` | interledger-rs/crates/interledger-ccp/src/server.rs:935-963 | folding the candidates in any order ends at their unique maximum |
| `BestRoutes.FoldBestIsBest` | interledger-rs/crates/interledger-ccp/src/server.rs:935-963 | the result of the fold beats every other candidate |
| `BestRoutes.CandidatesAreDistinct` | interledger-rs/crates/interledger-ccp/src/server.rs:932-934 | tables that hold only their own account's routes give candidates of distinct accounts |
| `RouteManagers.CommitKeepsConsistent` | interledger-rs/crates/interledger-ccp/src/server.rs:584-653 | installing a job keeps epoch = log length, forwarded keys within local keys, and tables with only their own account's routes |
| `RouteManagers.ReceiveKeepsConsistent` | interledger-rs/crates/interledger-ccp/src/server.rs:351-396 | so does handling an incoming update |
| `RouteManagers.CommitKeepsLogIsTable` | interledger-rs/crates/interledger-ccp/src/server.rs:584-653 | if every route forwarded at its turn is advertised under its key, installing a job keeps the forwarding table equal to the replay of the log |
| `RouteManagers.LogStaysTableIffAligned` | interledger-rs/crates/interledger-ccp/src/server.rs:584-653 | for a job with one entry per prefix, such as every decided job, the log still replays to the forwarding table after the commit if and only if every route forwarded at its turn is advertised under its key |
| `RouteManagers.MisalignedPickStays` | interledger-rs/crates/interledger-ccp/src/server.rs:604-634 | a route forwarded under another key than its own prefix is still in the forwarding table when the job is done |
| `RouteManagers.DecidedPicksAreOneEach` | interledger-rs/crates/interledger-ccp/src/server.rs:555-580 | checking prefixes gives no prefix two different entries |
| `RouteManagers.FirstCommitNeedsAlignment` | interledger-rs/crates/interledger-ccp/src/server.rs:602-634 | the first commit of a manager keeps table and log equal if and only if the route is not advertised or its prefix equals its key |
| `RouteManagers.DecideAllBetter` | interledger-rs/crates/interledger-ccp/src/server.rs:555-580 | a pick is decided exactly if its prefix was checked, the entry is its best route, and the local table leads nowhere or to another account |
| `RouteManagers.DecideAllGone` | interledger-rs/crates/interledger-ccp/src/server.rs:576-579 | a prefix is withdrawn exactly if it was checked and has no best route, held or not |
| `RouteManagers.InstallLocal` | interledger-rs/crates/interledger-ccp/src/server.rs:593-640 | installing picks changes the local table only under the picked prefixes |
| `RouteManagers.InstallIsReplay` | interledger-rs/crates/interledger-ccp/src/server.rs:593-634 | the announced routes, replayed, give the new forwarding view |
| `RouteManagers.InstallPicks` | interledger-rs/crates/interledger-ccp/src/server.rs:593-634 | the loop that sets routes and collects announcements computes the specified tables and announcements |
| `RouteManagers.RemoveGone` | interledger-rs/crates/interledger-ccp/src/server.rs:636-640 | the withdrawn prefixes are gone from both tables and nothing else changed |
| `RouteManagers.InstallTables` | interledger-rs/crates/interledger-ccp/src/server.rs:584-642 | setting, deleting and counting the epoch leave both tables as specified |
| `RouteManagers.DecideOne` | interledger-rs/crates/interledger-ccp/src/server.rs:555-580 | comparing one prefix with the table as it is gives the specified decision |
| `RouteManagers.MergeRange` | interledger-rs/crates/interledger-ccp/src/server.rs:796-848 | the loops over the epochs of a range compute the merged delta of the range, own prefix first from epoch 0 |
| `RouteManagers.MergeEpoch` | interledger-rs/crates/interledger-ccp/src/server.rs:819-848 | folding one more epoch into the running merge, additions before withdrawals |
| `RouteManagers.MergeAdditions` | interledger-rs/crates/interledger-ccp/src/server.rs:824-833 | an announcement is appended and cancels an earlier withdrawal of its prefix |
| `RouteManagers.MergeWithdrawals` | interledger-rs/crates/interledger-ccp/src/server.rs:835-847 | a withdrawal is appended and cancels earlier announcements of its prefix |
| `RouteManagers.PrefixesToCheck` | interledger-rs/crates/interledger-ccp/src/server.rs:541-548 | the given prefixes, or all configured and local ones |
| `RouteManagers.RouteManager.constructor` | interledger-rs/crates/interledger-ccp/src/server.rs:101-128 | a new manager has empty tables and an empty log |
| `RouteManagers.RouteManager.FilterRoutes` | interledger-rs/crates/interledger-ccp/src/server.rs:316-345 | the loop keeps, in order, exactly the routes that pass the filter |
| `RouteManagers.RouteManager.EnsureTable` | interledger-rs/crates/interledger-ccp/src/server.rs:384-391 | a peer heard from for the first time gets a fresh empty table under the id it announced; other tables are untouched |
| `RouteManagers.RouteManager.ApplyToTable` | interledger-rs/crates/interledger-ccp/src/server.rs:392-395 | applying an update changes the peer's own table, as specified, and no other object |
| `RouteManagers.RouteManager.UpdateTable` | interledger-rs/crates/interledger-ccp/src/server.rs:384-396 | finding or creating the peer's table and applying the update changes that table alone |
| `RouteManagers.RouteManager.HandleRouteUpdateRequest` | interledger-rs/crates/interledger-ccp/src/server.rs:351-396 | filtering and applying an update changes only the peer's table, exactly as specified, and keeps the manager valid |
| `RouteManagers.RouteManager.CheckPrefixes` | interledger-rs/crates/interledger-ccp/src/server.rs:536-582 | the loop over the prefixes computes the specified decisions and changes nothing |
| `RouteManagers.RouteManager.InstallJob` | interledger-rs/crates/interledger-ccp/src/server.rs:584-653 | local table, forwarding table, epoch and log move together as specified, and the answer says whether there was anything to install |
| `RouteManagers.RouteManager.UpdateBestRoutes` | interledger-rs/crates/interledger-ccp/src/server.rs:521-660 | checking and installing in sequence is the specified commit of the specified decisions; the store gets the simplified local table exactly if something changed, and nothing happens if the store cannot be read |
| `RouteManagers.RouteManager.CreateRouteUpdate` | interledger-rs/crates/interledger-ccp/src/server.rs:786-860 | the update carries the merged delta of its range, the table id and the current epoch |
| `RouteManagers.RouteManager.NextBroadcast` | interledger-rs/crates/interledger-ccp/src/server.rs:686-691 | a broadcast covers exactly the epochs since the last one |
| `BatchUpdates.CheckedPrefixResolvesToBestIff` | interledger-rs/crates/interledger-ccp/src/server.rs:536-653 | after any batch of checked prefixes, nested or not, a prefix with a best route resolves to the account of that route if and only if it was given that route, or it counted as unchanged, no checked prefix from the key it resolved through up to it moved, and, if that key went away, the longest prefix standing below it leads to the same account |
| `BatchUpdates.CheckedPrefixesResolveToBest` | interledger-rs/crates/interledger-ccp/src/server.rs:536-653 | after a batch in which no prefix is a prefix of another, every checked prefix with a best route resolves to the account of that route |
| `BatchUpdates.RecheckMovesNothing` | interledger-rs/crates/interledger-ccp/src/server.rs:536-653 | checking an unnested batch again right after installing it moves no prefix |
| `BatchUpdates.NestedBatchMissesBest` | interledger-rs/crates/interledger-ccp/src/server.rs:555-580 | with nested prefixes it can fail: a prefix that resolved through a shorter one follows it away from its best account |
| `BatchUpdates.CommitStands` | interledger-rs/crates/interledger-ccp/src/server.rs:584-653 | after a batch every prefix has its new entry, nothing, or what it had, by its own decision alone |
| `BatchUpdates.FallenBack` | interledger-rs/crates/interledger-ccp/src/server.rs:636-640 | if the key of an unchanged prefix goes away, the prefix resolves to an account exactly if the longest prefix standing below that key leads there |
| `BatchUpdates.MovedAway` | interledger-rs/crates/interledger-ccp/src/server.rs:593-601 | a moved prefix between the old key and the checked prefix always takes it to another account |
| `Network.IncomingTablesAreLoopFree` | interledger-rs/crates/interledger-ccp/src/server.rs:316-345 | in every run of a network of nodes with distinct fixed addresses, no incoming table of a node holds a route whose path contains that node; paths have no repeats and are shorter than the number of nodes; auth is hashed once per hop |
| `Network.AnnouncedPathsAreLoopFree` | interledger-rs/crates/interledger-ccp/src/server.rs:593-634 | every route in every message has a path without repeats that starts at its announcer, no longer than the number of nodes |
| `Network.LoggedPathsAreLoopFree` | interledger-rs/crates/interledger-ccp/src/server.rs:593-634 | the same for every route in every log |
| `Network.EveryNodeIsConsistent` | interledger-rs/crates/interledger-ccp/src/server.rs:642-650 | in every reachable state of every node the forwarding epoch is the log length and every forwarded prefix is a local one |
| `Network.EveryLogReplaysToItsTable` | interledger-rs/crates/interledger-ccp/src/server.rs:584-653 | in a run in which every forwarded route is advertised under its key, every forwarding table is the replay of its log |
| `Network.LogsReplayIffAligned` | interledger-rs/crates/interledger-ccp/src/server.rs:584-653 | in every run, all forwarding tables are the replays of their logs in all states if and only if every route that is forwarded is advertised under its key |
| `Network.MoveKeepsLogsIffAligned` | interledger-rs/crates/interledger-ccp/src/server.rs:584-653 | the same for one move of any node |
| `Network.PeersSeeTheForwardingTable` | interledger-rs/crates/interledger-ccp/src/server.rs:796-814 | a log that replays to the forwarding table brings peers to exactly that table, plus the node's own prefix unless the log has named it |
| `Network.OneRoundTripGivesTheForwardingTable` | interledger-rs/crates/interledger-ccp/src/server.rs:438-468 | one control round trip with a node of such a run gives its peer the node's forwarding table as far as the peer's filter lets it through, and all of it if and only if the filter keeps all of it |
| `Network.RunKeepsNetInv` | interledger-rs/crates/interledger-ccp/src/server.rs:316-345 | every run keeps the network invariant behind these results |
| `Network.MovesKeepNetInv` | interledger-rs/crates/interledger-ccp/src/server.rs:593-634 | one move of any node keeps it |
| `Network.SentPacketIsGood` | interledger-rs/crates/interledger-ccp/src/server.rs:786-860 | an update for any epoch range, even a stale or absurd one, only announces loop-free paths that start at the sender |
| `Network.PacketsTellTheLog` | interledger-rs/crates/interledger-ccp/src/server.rs:786-860 | in every run every packet names its sender and the sender's table, and carries exactly the merged range of the log as it was when it was sent |
| `Forwarding.CommitForwardsThePick` | interledger-rs/crates/interledger-ccp/src/server.rs:593-650 | after a commit a picked prefix without other picked prefixes below it: if peers may be told (spelled out), it is not withdrawn and it led elsewhere before, the forwarding table holds the new account with the route one hop longer and the new log entry announces that route; otherwise its entry stays, or is withdrawn |
| `Forwarding.CommitLeadsToThePick` | interledger-rs/crates/interledger-ccp/src/server.rs:617-634 | nested or not, a picked prefix that peers may be told leads to the picked account afterwards, as long as nothing below it is withdrawn or told to lead elsewhere |
| `Forwarding.OpposedPickIsLost` | interledger-rs/crates/interledger-ccp/src/server.rs:617-634 | otherwise it can fail: a prefix picked for the account it already leads to follows a shorter picked prefix away from it |
| `Forwarding.CommitFollowsIff` | interledger-rs/crates/interledger-ccp/src/server.rs:593-640 | a commit keeps every forwarded prefix with the account the node itself uses for it if and only if it does not move a forwarded prefix to another account by a route that peers may not be told |
| `Forwarding.TablesFollowIffNoSilentMove` | interledger-rs/crates/interledger-ccp/src/server.rs:593-640 | in every run of the network, in all states, forwarding tables agree with local tables on the accounts if and only if no such move is made |
| `Scope.OwnAddressesAreNotLearned` | interledger-rs/crates/interledger-ccp/src/server.rs:316-345 | in every run, whatever a peer's table says about an address at or below the node's own is said for a strictly shorter prefix inside the node's scheme |
| `Scope.AnnouncementsStayInScope` | interledger-rs/crates/interledger-ccp/src/server.rs:604-634 | every route ever sent, the node's own prefix aside, lies inside the sender's scheme, and a route that starts at the sender is for its exact address or lies outside its address space |
| `Scope.EpochsAreDisjoint` | interledger-rs/crates/interledger-ccp/src/server.rs:617-634 | if every forwarded route is advertised under its key, no log entry of any node both announces and withdraws a prefix |
| `Scope.RunKeepsScope` | interledger-rs/crates/interledger-ccp/src/server.rs:316-345 | every run keeps the scope invariant behind these results |
| `Scope.MovesKeepScope` | interledger-rs/crates/interledger-ccp/src/server.rs:593-634 | one move of any node keeps it |
| `Scope.InstallAnnounces` | interledger-rs/crates/interledger-ccp/src/server.rs:604-634 | only routes that may be advertised are collected for announcement |
| `StreamPayments.SlippageProtection` | interledger-rs/crates/interledger-stream/src/client.rs:182-200 | a completed payment has delivered at least ceil(r * source amount), capped at the largest 64-bit amount, for any lower bound r on the rates of packets that can be fulfilled, whatever the receiver claims and however the payment was split |
| `StreamPayments.SlippageProtectionInPrices` | interledger-rs/crates/interledger-stream/src/client.rs:673-704 | the same with r the lowest quoted price less the slippage, scaled from source to destination units |
| `StreamPayments.ScalesOfTheRate` | interledger-rs/crates/interledger-stream/src/client.rs:688-703 | equal scales leave the price less the slippage, a destination digit more multiplies the rate by ten and a source digit more divides it by ten |
| `StreamPayments.MoneyIsConserved` | interledger-rs/crates/interledger-stream/src/client.rs:174-223 | under any interleaving the receipt's in-flight amount, the controller's and the sum of pending packets are equal, and sent = fulfilled + in flight <= source amount |
| `StreamPayments.SendNeverClamps` | interledger-rs/crates/interledger-stream/src/client.rs:174-185 | no saturating or wrapping update of a send ever clamps or wraps in a run |
| `StreamPayments.ReplyNeverClamps` | interledger-rs/crates/interledger-stream/src/client.rs:187-223 | no update of a fulfill or reject ever clamps or wraps in a run |
| `StreamPayments.WaitingHasAReason` | interledger-rs/crates/interledger-stream/src/client.rs:366-393 | whenever the sender decides to wait, some packet that carries money is in flight |
| `StreamPayments.CompleteMeansAllFulfilled` | interledger-rs/crates/interledger-stream/src/client.rs:240-260 | complete exactly if the whole source amount was fulfilled, and then nothing is in flight |
| `StreamPayments.DustRule` | interledger-rs/crates/interledger-stream/src/client.rs:157-166 | spreading turns size s with n = remaining / s packets into s' with s <= s' < 2s and n * s' >= remaining if and only if the 64-bit sum remaining + n - 1 does not overflow; if it does, s' is zero |
| `StreamPayments.NoDustIsLeft` | interledger-rs/crates/interledger-stream/src/client.rs:150-166 | for every remaining amount, after the packets the dust rule counted on nothing is left to send or at least 1.2 times the minimum source amount, unless the sum overflowed and the size is zero |
| `StreamPayments.SpreadIsZeroIffOverflow` | interledger-rs/crates/interledger-stream/src/client.rs:150-166 | the size after the dust rule is zero exactly if the rule applied and its sum overflowed |
| `StreamPayments.RoundingDownMeetsMinimum` | interledger-rs/crates/interledger-stream/src/client.rs:124-140 | a packet worth at least 1000 destination units meets its minimum destination amount after one rounding down at any rate 0.1% above ours |
| `StreamPayments.MinSourceProtectsIff` | interledger-rs/crates/interledger-stream/src/client.rs:124-140 | the minimum source amount protects every packet that large, at every rate 0.1% above ours, if and only if it fits 64 bits |
| `StreamPayments.PacketSizeBounds` | interledger-rs/crates/interledger-stream/src/client.rs:142-175 | a packet never exceeds the learned limit or the amount available |
| `StreamPayments.PacketIsEmptyIff` | interledger-rs/crates/interledger-stream/src/client.rs:142-175 | a packet carries something exactly if the learned limit is not zero and the dust rule does not overflow, and it never overflows up to half the largest amount |
| `StreamPayments.OneRefusalIsEnough` | interledger-rs/crates/interledger-stream/src/client.rs:168-175 | after one F08 from a node every later packet of the run passes that node's limit, whatever wraps around on the way |
| `StreamPayments.LimitNeverRisesInARun` | interledger-rs/crates/interledger-stream/src/congestion.rs:116-133 | the learned limit never rises in a run |
| `StreamPayments.RunIsBalanced` | interledger-rs/crates/interledger-stream/src/client.rs:174-223 | every run keeps the books balanced and the window open |
| `StreamPayments.RunKeepsPromises` | interledger-rs/crates/interledger-stream/src/client.rs:575-582 | in every run pending packets promise, and fulfilled ones delivered, at least r per source unit |
| `StreamPayments.SendMoney` | interledger-rs/crates/interledger-stream/src/client.rs:340-410 | whatever replies arrive in whatever order, what the loop does is a run of the model that carries out every arrival that is possible at its time, and it closes exactly at the first turn that finds the payment complete |
| `StreamPayments.CarryOut` | interledger-rs/crates/interledger-stream/src/client.rs:366-393 | one arrival sends a packet or processes the reply to a pending one, as specified, exactly if that is possible |
| `StreamPayments.LoopCarriesOutRuns` | interledger-rs/crates/interledger-stream/src/client.rs:340-410 | any run that arrives is carried out to its last step, and one more turn closes the connection exactly if the payment is then complete |
| `StreamPayments.StreamPayment.constructor` | interledger-rs/crates/interledger-stream/src/client.rs:317-338 | a new payment has sent nothing and a window of the whole source amount |
| `StreamPayments.StreamPayment.ChoosePacketSize` | interledger-rs/crates/interledger-stream/src/client.rs:142-175 | the five sizing stages, one after the other, compute the specified size |
| `StreamPayments.StreamPayment.ApplyPrepare` | interledger-rs/crates/interledger-stream/src/client.rs:110-185 | the step-by-step sizing computes the specified packet size and minimum, and accounts for it |
| `StreamPayments.StreamPayment.ApplyFulfill` | interledger-rs/crates/interledger-stream/src/client.rs:189-200 | a fulfilled packet leaves flight and its delivered amount is added |
| `StreamPayments.StreamPayment.ApplyReject` | interledger-rs/crates/interledger-stream/src/client.rs:204-223 | a rejected packet leaves flight and is no longer counted as sent |
| `PacketSizes.PacketIsExactly` | interledger-rs/crates/interledger-stream/src/client.rs:142-185 | what a packet carries for every window, limit and amount left: what is left in the window but at least the minimum source amount; all that is left if that is less; the least even share if otherwise less than 1.2 times the minimum would be left over; each capped by the limit, and nothing if the share overflows |
| `PacketSizes.PacketIsAboutWhatIsWanted` | interledger-rs/crates/interledger-stream/src/client.rs:142-175 | unless the share overflows a packet is at least what is wanted as far as limit and amount left allow, and less than twice that |
| `PacketSizes.MinSourceIsLeast` | interledger-rs/crates/interledger-stream/src/client.rs:124-140 | the minimum source amount is the least packet of which 0.1% is worth a destination unit; zero if that does not fit 64 bits or there is no rate |
| `PacketSizes.MinDestinationIsLeast` | interledger-rs/crates/interledger-stream/src/client.rs:182-184 | the minimum destination amount is the least whole number worth the packet; zero if it does not fit 64 bits |
| `PacketSizes.FirstPacketIsEverything` | interledger-rs/crates/interledger-stream/src/client.rs:142-175 | before the rate is known the first packet carries the whole amount |
| `Throttling.SlowStartDoubles` | interledger-rs/crates/interledger-stream/src/congestion.rs:77-87 | in every payment, until the first T04 the window is the source amount times 2 to the number of fulfilled packets, up to the largest amount |
| `Throttling.AdditiveIncrease` | interledger-rs/crates/interledger-stream/src/congestion.rs:88-98 | from a T04 to the next one the window grows by exactly a tenth of the source amount per fulfilled packet, up to the largest amount |
| `Throttling.ThrottledForGood` | interledger-rs/crates/interledger-stream/src/congestion.rs:108-114 | a T04 halves the window, never below 1, and slow start never comes back |
| `Throttling.LearnedIsTight` | interledger-rs/crates/interledger-stream/src/congestion.rs:116-120 | unless the product overflows the learned limit is the exact quotient rounded down |
| `Throttling.HonestLimitIsLearned` | interledger-rs/crates/interledger-stream/src/congestion.rs:116-120 | a node that sees the amount that was sent is learned exactly |
| `Throttling.LimitOfAStep` | interledger-rs/crates/interledger-stream/src/congestion.rs:116-133 | an F08 with details lowers the limit to what they mean or leaves a lower one, one without halves a known limit, and nothing else touches it |
| `Throttling.NoLimitUntilRefused` | interledger-rs/crates/interledger-stream/src/congestion.rs:36-46 | a payment has no limit until some node has said what it takes |
| `Throttling.SendIsEnabledIff` | interledger-rs/crates/interledger-stream/src/client.rs:366-393 | in every run a packet may be sent exactly while the packets in flight do not fill the window and something is left of the source amount |
| `Throttling.DeliveredIsTheSum` | interledger-rs/crates/interledger-stream/src/client.rs:189-200 | in every run the receipt shows exactly the sum over fulfilled packets of the claim or the minimum, whichever is larger, up to the largest amount |
| `Congestion.LearnedLimitPasses` | interledger-rs/crates/interledger-service-util/src/max_packet_amount_service.rs:45-54 | if a node that sees floor(q * amount) refuses a packet, every packet up to the limit learned from its answer passes that node, even if the 64-bit product behind the limit wraps around |
| `Congestion.LearnedIsAtMost` | interledger-rs/crates/interledger-stream/src/congestion.rs:116-133 | the learned limit never exceeds the exact quotient, wrapped or not |
| `Congestion.LimitNeverRises` | interledger-rs/crates/interledger-stream/src/congestion.rs:116-133 | one rejection never raises a known limit |
| `Congestion.WindowStaysOpen` | interledger-rs/crates/interledger-stream/src/congestion.rs:77-113 | the window never leaves 1..2^64 - 1 |
| `Congestion.CongestionController.constructor` | interledger-rs/crates/interledger-stream/src/congestion.rs:36-46 | slow start with the given window and no known limit |
| `Congestion.CongestionController.Prepare` | interledger-rs/crates/interledger-stream/src/congestion.rs:58-66 | adds to the amount in flight |
| `Congestion.CongestionController.Fulfill` | interledger-rs/crates/interledger-stream/src/congestion.rs:70-100 | doubles or extends the window without overflow and takes the amount out of flight |
| `Congestion.CongestionController.Reject` | interledger-rs/crates/interledger-stream/src/congestion.rs:104-138 | halves the window on T04, learns or halves the limit on F08, and takes the amount out of flight |
| `Addresses.AddressIffPattern` | interledger-rs/crates/interledger-packet/src/address.rs:17-75 | an address is accepted exactly if it has at most 1023 bytes and matches the pattern, read as a regular expression: one of ten schemes, then one or more times a dot and one or more characters of the class |
| `WireFormats.UintIsBigEndian` | interledger-rs/crates/interledger-packet/src/oer.rs:280-284 | integers are written most significant byte first |
| `WireFormats.LengthLayout` | interledger-rs/crates/interledger-packet/src/oer.rs:268-276 | a length below 128 is one byte; a longer one is 128 plus its number of bytes, then the bytes, no more than needed |
| `WireFormats.VarUintLayout` | interledger-rs/crates/interledger-packet/src/oer.rs:280-284 | a variable-length integer is its number of bytes, then the bytes, no more than needed |
| `WireFormats.PrepareLayout` | interledger-rs/crates/interledger-packet/src/packet.rs:290-324 | a built Prepare byte by byte: 12, the length, amount in 8 bytes, expiry in 17, condition in 32, destination, data |
| `WireFormats.FulfillLayout` | interledger-rs/crates/interledger-packet/src/packet.rs:405-421 | a built Fulfill: 13, the length, fulfillment in 32 bytes, data |
| `WireFormats.RejectLayout` | interledger-rs/crates/interledger-packet/src/packet.rs:542-571 | a built Reject: 14, the length, code in 3 bytes, who triggered it or an empty octet string, message, data |
| `WireFormats.FrameLayout` | interledger-rs/crates/interledger-btp/src/packet.rs:201-210 | a frame: its type, the request id in 4 bytes, an octet string with the entries |
| `WireFormats.EntryCounts` | interledger-rs/crates/interledger-btp/src/packet.rs:150-157 | the list of entries starts with its count |
| `WireFormats.EntryLayout` | interledger-rs/crates/interledger-btp/src/packet.rs:150-157 | an entry: name, content type byte (0, 1 or as it was), data |
| `WireFormats.PropLayout` | interledger-rs/crates/interledger-ccp/src/packet.rs:296-318 | a prop: flags 128 optional, 64 transitive, 32 partial, 16 UTF-8, the id in 2 bytes, the value |
| `WireFormats.RouteLayout` | interledger-rs/crates/interledger-ccp/src/packet.rs:389-403 | a route: prefix, path, 32 bytes of auth, props |
| `WireFormats.RouteCounts` | interledger-rs/crates/interledger-ccp/src/packet.rs:389-403 | path and props start with their counts |
| `WireFormats.ControlLayout` | interledger-rs/crates/interledger-ccp/src/packet.rs:222-231 | a control request: mode 0 idle or 1 sync, table id in 16 bytes, epoch in 4, features |
| `WireFormats.UpdateCounts` | interledger-rs/crates/interledger-ccp/src/packet.rs:523-538 | new routes and withdrawn prefixes start with their counts |
| `WireFormats.UpdateLayout` | interledger-rs/crates/interledger-ccp/src/packet.rs:523-538 | an update: table id in 16 bytes, current, first and last epoch and hold-down time in 4 each, speaker, new routes, withdrawn prefixes |
| `Oer.OctetsAreCanonical` | interledger-rs/crates/interledger-packet/src/oer.rs:92-101 | in strict mode reading gives (s, rest) if and only if the input is the encoding of s followed by rest |
| `Oer.VarUintsAreCanonical` | interledger-rs/crates/interledger-packet/src/oer.rs:160-176 | the same for variable-length integers |
| `Oer.UintSizeIsLeast` | interledger-rs/crates/interledger-packet/src/oer.rs:37-46 | the predicted size is the least n >= 1 with v < 256^n |
| `Oer.SizeOnWire` | interledger-rs/crates/interledger-packet/src/oer.rs:248-256 | a byte string has the predicted size of its number exactly if it has no leading zero byte or is one byte long |
| `Oer.LengthRoundTrip` | interledger-rs/crates/interledger-packet/src/oer.rs:268-276 | every length written is read back in both modes, whatever follows it |
| `Oer.LengthIsCanonical` | interledger-rs/crates/interledger-packet/src/oer.rs:121-156 | in strict mode a length has only one encoding |
| `Oer.LenientAcceptsLeadingZeros` | interledger-rs/crates/interledger-packet/src/oer.rs:248-256 | the lenient reader accepts more than the strict one exactly for multi-byte lengths that start with a zero byte; otherwise the two agree |
| `Oer.ReadLengthIsLocal` | interledger-rs/crates/interledger-packet/src/oer.rs:121-156 | reading a length looks at the bytes it consumes and no others |
| `Oer.OctetsRoundTrip` | interledger-rs/crates/interledger-packet/src/oer.rs:261-264 | every octet string written is read back in both modes |
| `Oer.OctetsSizeIsExact` | interledger-rs/crates/interledger-packet/src/oer.rs:26-33 | the predicted size of an octet string is the size of its encoding |
| `Oer.VarUintRoundTrip` | interledger-rs/crates/interledger-packet/src/oer.rs:280-284 | every 64-bit integer written is read back in both modes |
| `Oer.GetPutUint` | interledger-rs/crates/interledger-packet/src/oer.rs:138-138 | big-endian writing then reading returns the number |
| `Oer.PutGetUint` | interledger-rs/crates/interledger-packet/src/oer.rs:138-138 | big-endian reading then writing returns the bytes |
| `Oer.Reader.ReadVarOctetStringLength` | interledger-rs/crates/interledger-packet/src/oer.rs:121-156 | the cursor moves past the length and the result or error is the specified one |
| `Oer.Reader.ReadVarOctetString` | interledger-rs/crates/interledger-packet/src/oer.rs:92-101 | likewise for an octet string |
| `Oer.Reader.ReadVariableUint` | interledger-rs/crates/interledger-packet/src/oer.rs:160-176 | likewise for a variable-length integer |
| `Oer.Writer.PutVarOctetStringLength` | interledger-rs/crates/interledger-packet/src/oer.rs:268-276 | appends the specified length |
| `Oer.Writer.PutVarOctetString` | interledger-rs/crates/interledger-packet/src/oer.rs:261-264 | appends the specified octet string |
| `Oer.Writer.PutVariableUint` | interledger-rs/crates/interledger-packet/src/oer.rs:280-284 | appends the specified integer |
| `Codec.ManyRoundTrip` | interledger-rs/crates/interledger-ccp/src/packet.rs:367-377 | if every item is read back, every list of items is |
| `Codec.CountedRoundTrip` | interledger-rs/crates/interledger-ccp/src/packet.rs:367-377 | likewise with the count in front |
| `Codec.ManyAreCanonical` | interledger-rs/crates/interledger-btp/src/packet.rs:117-143 | if every accepted item is the encoding of its value, every accepted list is |
| `Codec.CountedAreCanonical` | interledger-rs/crates/interledger-btp/src/packet.rs:113-148 | likewise with the count in front, in strict mode |
| `Codec.ReadText` | interledger-rs/crates/interledger-ccp/src/packet.rs:345-345 | an octet string that must be UTF-8 |
| `Utf8.Utf8IffEncoded` | interledger-rs/crates/interledger-ccp/src/packet.rs:345-345 | bytes pass the check for text exactly if they are the UTF-8 encoding of a sequence of Unicode scalar values |
| `CcpPackets.UpdateRoundTrip` | interledger-rs/crates/interledger-ccp/src/packet.rs:473-538 | decoding an encoded Route Update Request returns it for every nesting of routes, paths and props, in both modes and whatever follows; no minimum-length guard rejects it |
| `CcpPackets.ControlRoundTrip` | interledger-rs/crates/interledger-ccp/src/packet.rs:191-231 | the same for Route Control Requests |
| `CcpPackets.AcceptedUpdateRoundTrips` | interledger-rs/crates/interledger-ccp/src/packet.rs:473-538 | whatever bytes are accepted as an update, encoding and decoding the result again returns it |
| `CcpPackets.AcceptedControlRoundTrips` | interledger-rs/crates/interledger-ccp/src/packet.rs:191-231 | likewise for control requests |
| `CcpPackets.RouteRoundTrip` | interledger-rs/crates/interledger-ccp/src/packet.rs:344-403 | a route with its path, auth and props is read back |
| `CcpPackets.PropRoundTrip` | interledger-rs/crates/interledger-ccp/src/packet.rs:264-318 | a route prop with its four flags, id and value is read back |
| `CcpCanonical.AcceptedUpdateReencodesIff` | interledger-rs/crates/interledger-ccp/src/packet.rs:473-538 | an update accepted in strict mode re-encodes to its bytes if and only if an exact decoder, which also refuses the low four meta bits of a prop and anything after the last withdrawn prefix, accepts them |
| `CcpCanonical.AcceptedControlReencodesIff` | interledger-rs/crates/interledger-ccp/src/packet.rs:191-231 | a control request accepted in strict mode re-encodes to its bytes if and only if nothing follows its features |
| `CcpCanonical.ExactUpdateIsCanonical` | interledger-rs/crates/interledger-ccp/src/packet.rs:473-538 | whatever the exact decoder accepts is the encoding of its result |
| `CcpCanonical.ExactUpdateRoundTrip` | interledger-rs/crates/interledger-ccp/src/packet.rs:473-538 | the exact decoder accepts every encoded update and returns it |
| `CcpCanonical.ExactRouteIsCanonical` | interledger-rs/crates/interledger-ccp/src/packet.rs:344-403 | the same for a route |
| `CcpCanonical.ExactPropIsCanonical` | interledger-rs/crates/interledger-ccp/src/packet.rs:264-318 | and for a prop, where the four flags make up the whole meta byte |
| `CcpCodec.ReadUpdate` | interledger-rs/crates/interledger-ccp/src/packet.rs:473-521 | the cursor-moving decoder computes the specified result, errors included |
| `CcpCodec.ReadControl` | interledger-rs/crates/interledger-ccp/src/packet.rs:191-220 | likewise for control requests |
| `CcpCodec.ReadRoute` | interledger-rs/crates/interledger-ccp/src/packet.rs:344-385 | likewise for a route |
| `CcpCodec.ReadRoutes` | interledger-rs/crates/interledger-ccp/src/packet.rs:498-502 | the counted loop over routes |
| `CcpCodec.ReadRoutesTimes` | interledger-rs/crates/interledger-ccp/src/packet.rs:500-502 | each round moves one route from the input to the result |
| `CcpCodec.ReadProps` | interledger-rs/crates/interledger-ccp/src/packet.rs:367-377 | the counted loop over props |
| `CcpCodec.ReadPropsTimes` | interledger-rs/crates/interledger-ccp/src/packet.rs:369-377 | each round moves one prop |
| `CcpCodec.ReadTexts` | interledger-rs/crates/interledger-ccp/src/packet.rs:355-359 | the counted loop over path segments, features or withdrawn prefixes |
| `CcpCodec.ReadTextsTimes` | interledger-rs/crates/interledger-ccp/src/packet.rs:357-359 | each round moves one text |
| `CcpCodec.ReadProp` | interledger-rs/crates/interledger-ccp/src/packet.rs:264-292 | a prop and its meta bits |
| `CcpCodec.WriteUpdate` | interledger-rs/crates/interledger-ccp/src/packet.rs:523-538 | the appending encoder writes the specified bytes |
| `CcpCodec.WriteControl` | interledger-rs/crates/interledger-ccp/src/packet.rs:222-231 | likewise for control requests |
| `CcpCodec.WriteRoute` | interledger-rs/crates/interledger-ccp/src/packet.rs:389-403 | likewise for a route |
| `CcpCodec.WriteRoutes` | interledger-rs/crates/interledger-ccp/src/packet.rs:531-534 | likewise for the list of routes |
| `CcpCodec.WriteProps` | interledger-rs/crates/interledger-ccp/src/packet.rs:399-402 | likewise for the list of props |
| `CcpCodec.WriteProp` | interledger-rs/crates/interledger-ccp/src/packet.rs:296-318 | likewise for a prop, its meta byte built flag by flag |
| `CcpCodec.WriteTexts` | interledger-rs/crates/interledger-ccp/src/packet.rs:394-397 | likewise for a list of texts |
| `BtpPackets.FramesAreCanonical` | interledger-rs/crates/interledger-btp/src/packet.rs:176-254 | in strict mode decoding gives a frame if and only if the input is its encoding; a frame of one type is never read as another |
| `BtpPackets.AcceptedFramesReencode` | interledger-rs/crates/interledger-btp/src/packet.rs:176-254 | any bytes accepted as a Message or Response in strict mode re-encode to the same bytes |
| `BtpPackets.FrameRoundTrip` | interledger-rs/crates/interledger-btp/src/packet.rs:176-254 | decoding an encoded frame returns it, in both modes, if and only if no entry spells a known content type as an unknown one |
| `BtpPackets.EntriesRoundTrip` | interledger-rs/crates/interledger-btp/src/packet.rs:113-157 | a list of protocol data is read back |
| `BtpPackets.EntryListsAreCanonical` | interledger-rs/crates/interledger-btp/src/packet.rs:113-148 | any bytes accepted as protocol data in strict mode re-encode to the same bytes |
| `BtpPackets.ReadProtocolData` | interledger-rs/crates/interledger-btp/src/packet.rs:113-148 | the counted loop over entries computes the specified result, trailing bytes refused |
| `BtpPackets.ReadEntriesTimes` | interledger-rs/crates/interledger-btp/src/packet.rs:118-143 | each round moves one entry from the input to the result |
| `BtpPackets.PutProtocolData` | interledger-rs/crates/interledger-btp/src/packet.rs:150-157 | the loop appends the specified bytes |
| `BtpPackets.FromBytes` | interledger-rs/crates/interledger-btp/src/packet.rs:176-199 | the decoder computes the specified result, errors included |
| `BtpPackets.ToBytes` | interledger-rs/crates/interledger-btp/src/packet.rs:201-210 | the encoder writes the specified bytes |
| `IlpPackets.CacheAlwaysAgrees` | interledger-rs/crates/interledger-packet/src/packet.rs:207-261 | for any packet built or parsed in either mode and any sequence of setter calls, the packet shows the last setting of every field, and reparsing its buffer gives the same offsets and the same amount, condition, destination, data and expiry to the millisecond |
| `IlpPackets.ChangesAgree` | interledger-rs/crates/interledger-packet/src/packet.rs:207-235 | any sequence of setter calls keeps cache and buffer in agreement |
| `IlpPackets.SetAmountAgrees` | interledger-rs/crates/interledger-packet/src/packet.rs:214-218 | after `set_amount` the buffer reparses to the cached fields |
| `IlpPackets.SetExpiresAtAgrees` | interledger-rs/crates/interledger-packet/src/packet.rs:226-235 | after `set_expires_at` likewise, the expiry to the millisecond |
| `IlpPackets.SetAmountChangesAmount` | interledger-rs/crates/interledger-packet/src/packet.rs:214-218 | `set_amount` changes the amount and no other field |
| `IlpPackets.SetExpiresAtChangesExpiry` | interledger-rs/crates/interledger-packet/src/packet.rs:226-235 | `set_expires_at` changes the expiry and no other field |
| `IlpPackets.BuiltAgrees` | interledger-rs/crates/interledger-packet/src/packet.rs:290-324 | a built packet says what it was built from and reparses to itself |
| `IlpPackets.ParsedAgrees` | interledger-rs/crates/interledger-packet/src/packet.rs:130-204 | a parsed packet reparses to itself |
| `IlpPackets.AgreeingIsReadable` | interledger-rs/crates/interledger-packet/src/packet.rs:238-255 | the accessors that unwrap never fail on such a packet |
| `IlpPackets.AcceptedPrepareReencodes` | interledger-rs/crates/interledger-packet/src/packet.rs:130-204 | in strict mode, rebuilding what an accepted packet says gives its bytes back if and only if the date library writes the expiry the way it was received |
| `IlpPackets.EnvelopeSplice` | interledger-rs/crates/interledger-packet/src/packet.rs:587-613 | overwriting content bytes moves no boundary of the envelope |
| `IlpPackets.EnvelopeOfWrap` | interledger-rs/crates/interledger-packet/src/packet.rs:587-613 | a written envelope is opened at its content |
| `IlpPackets.EnvelopeIsCanonical` | interledger-rs/crates/interledger-packet/src/packet.rs:587-613 | a strict envelope has only one form |
| `IlpPackets.TruncateIsToTheMillisecond` | interledger-rs/crates/interledger-packet/src/packet.rs:226-235 | what is cached and what is reparsed agree to the last whole millisecond not after the given instant |
| `IlpPackets.DecimalClockIsLawful` | interledger-rs/crates/interledger-packet/src/packet.rs:20-22 | the laws asked of the date library can be met |
| `IlpBuffers.PreparePacket.Build` | interledger-rs/crates/interledger-packet/src/packet.rs:290-324 | the builder fills a fresh buffer with the specified bytes and caches the specified fields and offsets |
| `IlpBuffers.PreparePacket.SetAmount` | interledger-rs/crates/interledger-packet/src/packet.rs:214-218 | the bytes are overwritten in place and the cache follows, as specified |
| `IlpBuffers.PreparePacket.SetExpiresAt` | interledger-rs/crates/interledger-packet/src/packet.rs:226-235 | likewise for the expiry |
| `IlpBuffers.PreparePacket.ExecutionCondition` | interledger-rs/crates/interledger-packet/src/packet.rs:239-243 | the 32 condition bytes |
| `IlpBuffers.PreparePacket.Data` | interledger-rs/crates/interledger-packet/src/packet.rs:251-255 | the data, without failing |
| `IlpBuffers.TryFrom` | interledger-rs/crates/interledger-packet/src/packet.rs:130-204 | parsing keeps the given buffer and caches the specified fields, errors included |
| `IlpBuffers.Scan` | interledger-rs/crates/interledger-packet/src/packet.rs:130-204 | the cursor-moving parser computes the specified packet or error |
| `IlpBuffers.ReadContent` | interledger-rs/crates/interledger-packet/src/packet.rs:142-194 | the fields inside the envelope, the digit check as a loop |
| `IlpBuffers.DeserializeEnvelope` | interledger-rs/crates/interledger-packet/src/packet.rs:587-613 | the content and its offset, found by peeking at the length |
| `IlpBuffers.Overwrite` | interledger-rs/crates/interledger-packet/src/packet.rs:216-217 | the given bytes replace the old ones and every other byte stays |
| `IlpBuffers.Fill` | interledger-rs/crates/interledger-packet/src/packet.rs:290-314 | the bytes the builder appends |
| `IlpReplies.RejectReparses` | interledger-rs/crates/interledger-packet/src/packet.rs:542-571 | a built Reject reparses to itself, every offset included, if it names who triggered it, and otherwise is refused for its address |
| `IlpReplies.BuiltRejectViewIsInput` | interledger-rs/crates/interledger-packet/src/packet.rs:480-506 | a built Reject says what it was built from, with or without an address |
| `IlpReplies.AcceptedRejectReencodes` | interledger-rs/crates/interledger-packet/src/packet.rs:444-477 | a strictly parsed Reject is the one built from what it says, offsets included |
| `IlpReplies.FulfillRoundTrip` | interledger-rs/crates/interledger-packet/src/packet.rs:405-421 | a built Fulfill reparses to itself and says what it was built from |
| `IlpReplies.AcceptedFulfillReencodes` | interledger-rs/crates/interledger-packet/src/packet.rs:342-354 | a strictly parsed Fulfill is the one built from what it says |
| `DelayedSettlement.KeysAreAlwaysLive` | interledger-rs/crates/interledger-service-util/src/balance_service.rs:534-567 | in every run the map and the delay queue are a bijection: removal never uses a dead key and an expiry always finds its account under the expired key |
| `DelayedSettlement.SchedulesAreConserved` | interledger-rs/crates/interledger-service-util/src/balance_service.rs:539-567 | over any part of any run, every effective Set is fired, cleared or still queued, exactly once |
| `DelayedSettlement.UnclearedSetFiresOnce` | interledger-rs/crates/interledger-service-util/src/balance_service.rs:551-567 | a Set that is never cleared fires exactly once per scheduling, except for one that is still queued |
| `DelayedSettlement.TimerIsNeverRestarted` | interledger-rs/crates/interledger-service-util/src/balance_service.rs:551-560 | in every run a running timer keeps its key until it expires or is cleared, however often the account is set again |
| `DelayedSettlement.SetStartsATimer` | interledger-rs/crates/interledger-service-util/src/balance_service.rs:551-560 | a Set of an account that is not queued starts a timer for it that can expire |
| `DelayedSettlement.InputClosedMeansDrained` | interledger-rs/crates/interledger-service-util/src/balance_service.rs:621-626 | the loop reports a closed input only when the input ended and nothing is queued |
| `DelayedSettlement.LoopEndsForAReason` | interledger-rs/crates/interledger-service-util/src/balance_service.rs:609-626 | the loop has ended with a reason exactly if its last event was that timer failure, or the queue found empty after the input ended |
| `DelayedSettlement.LoopCanGoOn` | interledger-rs/crates/interledger-service-util/src/balance_service.rs:537-630 | until then every queued account can expire, an open input can be used or ended, and with the input ended and nothing queued the loop can end |
| `DelayedSettlement.FiredIsSettled` | interledger-rs/crates/interledger-service-util/src/balance_service.rs:574-608 | the settlements started are exactly the expiries, per account |
| `DelayedSettlement.RunKeepsInv` | interledger-rs/crates/interledger-service-util/src/balance_service.rs:537-630 | every interleaving of commands, expiries and timer failures keeps the bijection |
| `DelayedSettlement.NextKeepsInv` | interledger-rs/crates/interledger-service-util/src/balance_service.rs:538-629 | one event keeps it |
| `DelayedSettlement.SettlementLoop.constructor` | interledger-rs/crates/interledger-service-util/src/balance_service.rs:534-535 | an empty map beside an empty queue |
| `DelayedSettlement.SettlementLoop.HandleClear` | interledger-rs/crates/interledger-service-util/src/balance_service.rs:541-550 | removes the entry from both, with a live key |
| `DelayedSettlement.SettlementLoop.HandleSet` | interledger-rs/crates/interledger-service-util/src/balance_service.rs:551-560 | inserts into both only if the account has no entry |
| `DelayedSettlement.SettlementLoop.HandleExpired` | interledger-rs/crates/interledger-service-util/src/balance_service.rs:565-567 | removes the expired entry from both; the account was in the map under that key |
| `DelayedSettlement.SettlementLoop.Run` | interledger-rs/crates/interledger-service-util/src/balance_service.rs:537-630 | the loop reaches the specified state and starts exactly the specified settlements in order |
| `Balances.BalancesAreConserved` | interledger-rs/crates/interledger-service-util/src/balance_service.rs:113-207 | in every interleaving of requests, spawned tasks, settlements and refunds, each net balance is its start, less incoming amounts not rolled back, plus applied outgoing amounts, less settlements not refunded, plus settlements received; prepaid amounts stay non-negative |
| `Balances.LawHoldsIffEngineOrNoSettling` | interledger-rs/crates/interledger-service-util/src/balance_service.rs:290-352 | given another account that can pay what is missing to the threshold, the law with settlements either sent, being sent or waiting for their refund holds in every run if and only if the account has a settlement engine or its settings never settle |
| `Balances.ConservedUnlessDropped` | interledger-rs/crates/interledger-service-util/src/balance_service.rs:305-349 | after a run that law holds exactly if no settlement of the account was dropped |
| `Balances.DroppingRunDrops` | interledger-rs/crates/interledger-service-util/src/balance_service.rs:345-349 | how it fails: an ordinary payment from another account takes an account without an engine to its threshold, and the settlement leaves its balance and is neither sent nor refunded |
| `Balances.RunKeepsBalanced` | interledger-rs/crates/interledger-service-util/src/balance_service.rs:113-207 | every run keeps balances and history in step |
| `Balances.NextKeepsBalanced` | interledger-rs/crates/interledger-service-util/src/balance_service.rs:238-352 | one event keeps them in step |
| `Balances.PrepareIsExact` | interledger-rs/crates/interledger-store/src/redis/lua/process_prepare.lua:1-29 | a prepare is refused exactly if it would go below the minimum; otherwise exactly its amount is taken, prepaid money first |
| `Balances.SettlementIsExact` | interledger-rs/crates/interledger-store/src/redis/lua/process_fulfill.lua:1-23 | what is settled is what leaves the balance, is positive exactly if due (at the threshold, or for a delayed settlement above `settle_to`), and leaves the balance at `settle_to` |
| `Balances.CreditIsExact` | interledger-rs/crates/interledger-store/src/redis/lua/process_incoming_settlement.lua:1-28 | an incoming settlement adds exactly its amount, pays off debt only up to zero and becomes prepaid only as far as nothing is owed |
| `Balances.Store.UpdateBalancesForPrepare` | interledger-rs/crates/interledger-store/src/redis/lua/process_prepare.lua:1-29 | the stepwise deduction computes the specified balance or refusal |
| `Balances.Store.UpdateBalancesForFulfill` | interledger-rs/crates/interledger-store/src/redis/lua/process_fulfill.lua:1-23 | the stepwise credit computes the specified balance and amount to settle |
| `Balances.Store.UpdateBalancesForDelayedSettlement` | interledger-rs/crates/interledger-store/src/redis/lua/process_settle.lua:1-16 | the specified balance and amount to settle |
| `Balances.Store.Return` | interledger-rs/crates/interledger-store/src/redis/lua/process_reject.lua:1-7 | the amount is added back to the balance |
| `Balances.Service.SendRequest` | interledger-rs/crates/interledger-service-util/src/balance_service.rs:113-158 | zero packets are forwarded untouched, others only after the prepare is accepted |
| `Balances.Service.HandleReply` | interledger-rs/crates/interledger-service-util/src/balance_service.rs:159-206 | a reply spawns the task that applies it, except a fulfill of nothing |
| `Balances.Service.SettleOrRollbackNow` | interledger-rs/crates/interledger-service-util/src/balance_service.rs:238-288 | the fulfill task credits the receiver and starts the settlement that is due; it clears a pending timeout before settling, sets one if nothing is due but the balance is positive, and does nothing if the store fails |
| `Balances.Service.RollBack` | interledger-rs/crates/interledger-service-util/src/balance_service.rs:194-202 | the reject task returns the incoming amount unless the store fails |
| `Balances.Service.SettleDelayed` | interledger-rs/crates/interledger-service-util/src/balance_service.rs:574-608 | an expired timeout settles down to `settle_to`; without the account or the store nothing happens |
| `Balances.Service.Settle` | interledger-rs/crates/interledger-service-util/src/balance_service.rs:290-312 | nothing for a zero amount; sending with an engine, dropped without |
| `Balances.Service.HandleEngineReply` | interledger-rs/crates/interledger-service-util/src/balance_service.rs:316-320 | an accepted settlement is final, a failed one is to be refunded |
| `Balances.Service.Refund` | interledger-rs/crates/interledger-service-util/src/balance_service.rs:328-338 | a refund returns the amount unless the store fails |
| `BalanceHistories.RequestPhaseIsItsHistory` | interledger-rs/crates/interledger-service-util/src/balance_service.rs:159-206 | in every run, for every request, the phase is what the last event about it left: both directions, for every phase |
| `BalanceHistories.RejectedIsRolledBackOnce` | interledger-rs/crates/interledger-service-util/src/balance_service.rs:194-202 | whatever runs in between, after a rejection the task that rolls the request back can run, returns exactly the incoming amount to the payer alone, and never can run again |
| `BalanceHistories.FulfilledIsAppliedOnce` | interledger-rs/crates/interledger-service-util/src/balance_service.rs:159-193 | likewise after a fulfillment with something to pass on |
| `BalanceHistories.RolledBackLeavesNoTrace` | interledger-rs/crates/interledger-service-util/src/balance_service.rs:113-207 | in every run, once a request was rolled back every net balance is what all the other requests, settlements and credits account for |
| `BalanceHistories.RejectedPaymentIsUndone` | interledger-rs/crates/interledger-service-util/src/balance_service.rs:113-207 | a payment that is sent, rejected and rolled back leaves every net balance as it was |
| `BalanceHistories.SettlementPhaseIsItsHistory` | interledger-rs/crates/interledger-service-util/src/balance_service.rs:290-352 | in every run, for every settlement, the phase is what the last event about it left, and it is refunded or waits for it exactly if its engine reported a failure |
| `BalanceHistories.RefundedExactlyAfterFailure` | interledger-rs/crates/interledger-service-util/src/balance_service.rs:316-345 | a refund happens only after a reported failure and never after a success, and a reported failure can be refunded, once, whatever runs in between |
| `BalanceHistories.SendTakesItsAmount` | interledger-rs/crates/interledger-service-util/src/balance_service.rs:113-158 | an empty packet takes nothing, one that would take the payer below the minimum is refused without effect, any other takes its incoming amount from the payer alone |
| `BalanceHistories.RollbackReturnsTheAmount` | interledger-rs/crates/interledger-service-util/src/balance_service.rs:194-202 | a rollback returns the incoming amount to the payer alone |
| `BalanceHistories.FulfillCreditsTheAmount` | interledger-rs/crates/interledger-service-util/src/balance_service.rs:238-312 | a fulfillment credits the outgoing amount to the receiver alone and, at the threshold, starts a settlement of everything above `settle_to` |
| `BalanceHistories.DelayedSettlesTheExcess` | interledger-rs/crates/interledger-store/src/redis/lua/process_settle.lua:1-16 | a delayed settlement settles exactly what the balance exceeds `settle_to` by, if the account settles at all |
| `BalanceHistories.RefundReturnsTheAmount` | interledger-rs/crates/interledger-store/src/redis/lua/refund_settlement.lua:1-5 | a refund returns the settled amount to its account alone |
| `BalanceHistories.ReceiveCreditsTheAmount` | interledger-rs/crates/interledger-store/src/redis/lua/process_incoming_settlement.lua:1-28 | an incoming settlement with a new key is credited to its account alone; with a known key nothing happens |
| `BalanceHistories.KeyCreditsOnce` | interledger-rs/crates/interledger-store/src/redis/lua/process_incoming_settlement.lua:1-28 | an incoming settlement is credited once per idempotency key, however often it is repeated, until the key is forgotten |

## Left out

- RoutingTables.RoutingTable.IncrementEpoch: epochs are unbounded; the 32-bit index is modelled in the packet formats only, so overflow of the counter is not.
- The checks around CCP packets (destination, peer protocol condition, expiry, account relation): one branch each.
- Back-off of unavailable accounts, broadcast timing and concurrent broadcasts of the same node.
- The gap between choosing best routes under a read lock and installing them under a write lock is modelled (a job may be installed later, after other changes); other lock granularity is not.
- Congestion.CongestionController.Reject: halves exactly, while the source halves in 64-bit floats, which round above 2^53; decrease factors other than 2 are not modelled.
- The rounding of 64-bit floats above 2^53 in the dust threshold and the exchange rates.
- StreamPayments.SendMoney: does not model the timeout, fail-fast counting and the fatal rejections that end the loop early; in the model such a payment just stops receiving arrivals.
- StreamPayments.StreamPayment.ApplyReject: does not model the counters behind fail-fast, which change no amount.
- Sequence numbers, encryption and connection close of a STREAM payment, and the STREAM packet format.
- BTP Error frames and the dispatch on the frame type: they differ from Message and Response by a timestamp and text fields.
- Conversion between calendar dates and instants, leap seconds, and the `roundtrip-only` feature, whose condition is the right-hand side of `AcceptedPrepareReencodes`.
- Oer.Reader.ReadVarOctetStringLength: lengths are unbounded up to 8 bytes; the error for lengths that do not fit `usize` on 32-bit targets is not modelled.
- Splitting a packet's data off its buffer (`into_data`), the Fulfill and Reject buffers as mutable arrays (nothing overwrites them), and Debug output.
- DelayedSettlement.SettlementLoop.Run: the end of the command stream is one event; how the stream is polled after it has ended is not modelled.
- Whether a Set or Clear command reaches the loop: the bounded channel may drop it.
- Crashes between a balance update and the settlement it starts, and the number format of the store's scripts (doubles in Lua).
- HTTP, WebSocket, Redis and task plumbing, the router, rate limiter, expiry shortener, validator, echo and ILDCP services, the API and the command line client.
