# Network plugin manager: verified model

This project models the parts of the network plugin manager whose mistakes are
expensive: two firewall compilers that must mean the same thing on two kernel
interfaces, the protocol that turns `route_localnet` on and off, the lock and the
state machine that bring containers up, the CNI configuration migration, the choice
of CNI providers, and a few algorithms they rest on.

- **Firewall meaning.** `Netfilter` gives packets, rules and first-match evaluation;
  `HostportsRules` and `HostnatRules` compile one rule set to iptables rules and to a
  native nft table with the loops of the source; `HostportsMeaning`, `HostnatRules` and
  `PerHostTraffic` prove for every rule set and every packet where the two agree and
  exactly where they part. Rule texts are modelled as matches and actions.
- **Audits and repair.** `HostportsAudit` proves the counting audit of the nft table
  exact against the generator. `HostnatReconcile` gives nft batches a meaning
  (transactional, `add` on an existing chain needs the same hook) and proves that one
  reconciliation repairs every drift the check can see, and which drift it cannot.
- **Guarded `route_localnet`.** `HostportsGuard` runs the watcher over a kernel whose
  every operation may fail, whose `iptables-restore` may commit only some tables, and
  whose every intermediate state is recorded, so that a crash can continue from any of them.
- **Concurrency.** `KeyLock` and `NetworkManager` are state machines over the atomic
  steps of any number of threads; invariants are proved inductive over all interleavings, and
  `NetworkEvaluation` says what one evaluation amounts to.
- **Crash-safe files.** `CniDisk`, `CniConf`, `CniApply`, `CniOwnership`, `CniMoves` and `CniCrash` model the
  CNI migration over a file system with failing operations and recorded states, up to whole lifetimes of
  upgrades, rollbacks and crashes.
- **Provider choice.** `BinExec`, `BinExecDrivers` and `BinExecWatcher` prove that the Go map order cannot
  reach the result, and what one pass does to each binary name.
- **Algorithms.** `PlatformHook` and `XtFrontend` (reachability in an iptables listing and
  the frontend detection built on it), `PeerSubnets`, `PeerTexts`, `Cidr` and `CidrText` (overlap of prefixes and their texts),
  `Conntrack` (deletion by pattern), `StringOrder` and `Lists` (sorted keys, blocks of output).

How the model is cut: objects whose methods update fields are classes; the outside world
(kernel, disk, Docker, metadata) is a class or a parameter whose answers are arbitrary.
A `faults` counter says whether any operation failed beyond what its inputs explain, and
statements about successful runs hold for the runs in which it did not move.

Places where a reader might expect more than the code does:

- The iptables FORWARD chain tests the mark for equality, the nft chain tests its bits
  (`hostports/watcher.go:638`, `hostports/nft.go:201`); `ForwardAgreement` says exactly when that shows.
- nft masquerades the same-bridge hairpin that iptables does not (`hostports/nft.go:168-172`).
- After deduplication, the shared-ingress flag is read for the smallest UUID of a
  (bridge, subnet) pair only (`hostports/watcher.go:886-894`); `Representative` carries this.
- The nft audits count rules without reading them, so a rule replaced by another goes unseen
  (`AuditIsExact`, `ReconcileIsExact`, `ExchangedRulesGoUnseen`).
- A driver's sidekick whose primary is itself a sidekick is found only behind it in the service list
  (`binexec/watcher.go:171-175`); `SidekickOrderMatters` shows both orders.
- The source-translation pass of the conntrack sync can delete entries that are not stale,
  because the reply port that decides ownership is not in the delete pattern
  (`conntracksync/watcher.go:106-124`, `conntracksync/conntrack/conntrack.go:62-71`);
  `SnatDeletesTooMuch` is an example, `SnatSparesTableExactlyWhen` the condition on a table and
  `SnatIsSafeExactlyWhen` the condition on the published ports, over every table `conntrack -L` can print.
- A container with an empty `StartedAt` looks like one that was never recorded
  (`network/manager.go:53-91`); `EmptyTimeRepeats` is a run that shows it and
  `SeparatedExactlyWhen` the exact condition.

## Model

| member | source | states |
|---|---|---|
| Netfilter.RunPicksFirst | hostports/watcher.go:612-615 | a chain built block by block is decided by the first element whose block decides |
| Netfilter.RunUniform | hostports/nft.go:181-197 | in a chain whose rules all do the same, only admission by some rule matters |
| Netfilter.Emit | hostports/watcher.go:612-615 | a generator loop appends exactly one block per element, in order |
| StringOrder.CollectSorted | hostports/watcher.go:607-611 | collecting map keys in any order and sorting gives one fixed list |
| StringOrder.SortIgnoresOrder | internal/hostlabel/resolve.go:48-52 | sorting forgets the order in which a list was built |
| Cidr.OverlapIsExact | internal/hostlabel/resolve.go:41-45 | testing each base address against the other prefix is true exactly when the two address sets meet (section 3.1 of RFC 4632) |
| HostportsRules.SortedEnabledBridges | hostports/route_localnet.go:116-128 | the enabled bridges, each once, in name order |
| HostportsRules.SortedForwardNetworks | hostports/watcher.go:866-884 | the deduplicated networks in UUID order |
| HostportsRules.NetworksExact | hostports/watcher.go:866-884 | deduplication keeps every (bridge, subnet) pair, nothing else, under its smallest UUID |
| HostportsRules.SortedSharedIngressNetworks | hostports/watcher.go:886-894 | the shared networks among the deduplicated ones, in the same order |
| HostportsRules.SharedExact | hostports/watcher.go:886-894 | a network is listed as shared exactly when the flag of its surviving UUID is set |
| HostportsRules.SortedForwardPeers | hostports/watcher.go:898-913 | the peer pairs in the order of UUIDs and peers |
| HostportsRules.PairsExact | hostports/watcher.go:898-913 | every peer of every managed network gets a pair and nothing else does |
| HostportsRules.CompileIptables | hostports/watcher.go:588-642 | the loops build the specified raw, NAT and forward chains |
| HostportsRules.CompileNft | hostports/nft.go:129-203 | the loops build the specified five nft chains |
| HostportsRules.ValidRuleSetExactly | hostports/watcher.go:687-757 | the accepted rule sets, clause by clause in terms of names, subnets, ports and flags |
| HostportsMeaning.PreroutingAgreement | hostports/watcher.go:121-161 | for every rule set and packet both backends choose the same DNAT target in prerouting, the first port in key order that serves the packet; only the mark operation differs |
| HostportsMeaning.OutputAgreement | hostports/nft.go:156-164 | locally generated traffic gets the same target in both backends |
| HostportsMeaning.IptPostroutingRules | hostports/watcher.go:170-190 | one port's iptables masquerade rules admit exactly self-traffic and redirected traffic |
| HostportsMeaning.NftPostroutingRules | hostports/nft.go:166-179 | one port's nft masquerade rules admit exactly that and the hairpin on the port's own bridge |
| HostportsMeaning.PostroutingAgreement | hostports/nft.go:165-179 | for every rule set and packet nft masquerades exactly what iptables does plus same-bridge hairpin traffic |
| HostportsMeaning.GeneratedAdmit | hostports/watcher.go:619-637 | both generated forward chains admit exactly managed, shared, peer and published traffic, with the connection states of each named by the flow and not by the generator |
| HostportsMeaning.ForwardOutcomes | hostports/watcher.go:617-640 | the complete verdict and mark of both FORWARD chains for every packet |
| HostportsMeaning.ForwardAgreement | hostports/nft.go:180-201 | iptables accepts only what nft accepts; they differ exactly on strict supersets of the published mark; accepted packets leave nft with all mark bits unless only the Kubernetes rule took them |
| HostportsMeaning.MarksInFull | hostports/nft.go:201 | the mark bits are 0x1068 and 0x4000 |
| HostportsMeaning.UnsolicitedIsNotAccepted | hostports/watcher.go:619-640 | new traffic without a mark that leaves no network, stays in no shared one, comes from no peer and goes to no published target falls through both FORWARD chains |
| HostportsMeaning.NetworkIsServed | hostports/watcher.go:619-622 | traffic out of a network's bridge and subnet is accepted unless invalid, and answers into it are, in both chains, nft setting the 0x1068 bits |
| HostportsMeaning.InvalidNeedsPeerOrTarget | hostports/watcher.go:619-637 | without a mark an invalid packet is accepted only from a peer or to a published target |
| HostportsAudit.PortChainLengths | hostports/nft.go:27-60 | how many rules the generator writes per NAT chain, whatever order ports are counted in |
| HostportsAudit.HeadersAgree | hostports/nft.go:37-43 | the headers the audit expects are those the generator writes |
| HostportsAudit.ForwardLength | hostports/nft.go:37-60 | how many rules the generator writes in the forward chain, deduplication included |
| HostportsAudit.ExpectedCounts | hostports/nft.go:37-60 | the counting loops compute the lengths of the generated chains |
| HostportsAudit.AuditListing | hostports/nft.go:61-92 | the scan of the listing passes exactly when all five chains are present, well hooked and of the wanted length |
| HostportsAudit.CheckNftRules | hostports/nft.go:17-96 | the audit of a listing passes exactly when it fits the table generated for the applied rules |
| HostportsAudit.AuditIsExact | hostports/nft.go:17-96 | on a live table the audit passes exactly when every chain is hooked as generated and has as many rules |
| HostportsAudit.OneChainChanged | hostports/nft.go:86-92 | changing one chain is noticed exactly when its length changes |
| HostportsAudit.AuditAgreesWithGenerator | hostports/nft.go:17-203 | the generated table passes its own audit; adding or removing any rule in any chain fails it |
| HostportsGuard.GuardDropsLoopback | hostports/watcher.go:589-595 | while a bridge's setting differs from its original, no packet for 127/8 passes the raw hook on it |
| HostportsGuard.LoopbackRange | hostports/watcher.go:593 | the guarded range is 127.0.0.0 to 127.255.255.255 |
| HostportsGuard.RawDropsExactly | hostports/watcher.go:589-595 | both raw chains drop exactly loopback destinations arriving on an enabled bridge |
| HostportsGuard.CommitKeepsSafe | hostports/nft.go:115-120 | guards may be replaced once every bridge losing one is restored |
| HostportsGuard.SaveKeepsSafe | hostports/route_localnet.go:152-170 | the ownership record may be replaced once leaving bridges are restored and entering ones guarded |
| HostportsGuard.EnableKeepsSafe | hostports/route_localnet.go:171-181 | enabling a recorded, guarded bridge is safe |
| HostportsGuard.RestoreKeepsSafe | hostports/route_localnet.go:130-150 | writing a recorded original back is safe |
| HostportsGuard.CommitTablesKeepsSafe | hostports/watcher.go:654-656 | `iptables-restore` may stop after any table and the state stays safe |
| HostportsGuard.CompiledAreGuarded | hostports/watcher.go:592-594 | the generated raw chain guards every enabled bridge, in both backends |
| HostportsGuard.Watcher.constructor | hostports/watcher.go:36-76 | a new process owns exactly what the persisted map records |
| HostportsGuard.Watcher.RestoreRemoved | hostports/route_localnet.go:130-150 | success puts every bridge that is no longer enabled back; every state on the way is safe; without faults it fails only for a missing bridge that is to be turned back on |
| HostportsGuard.Watcher.EnsureForwardJumpFirst | hostports/watcher.go:251-265 | success puts the jump before every other FORWARD rule; failure leaves a working jump where it was |
| HostportsGuard.Watcher.InsertBaseRules | hostports/watcher.go:192-228 | hooks are only added, and success means all are there, the FORWARD jump first; without faults it succeeds |
| HostportsGuard.Watcher.ReadOriginals | hostports/route_localnet.go:152-166 | the next ownership record keeps recorded originals and reads the others before anything is changed |
| HostportsGuard.Watcher.EnableAll | hostports/route_localnet.go:171-181 | success turns every enabled bridge on and leaves the others alone |
| HostportsGuard.Watcher.Activate | hostports/route_localnet.go:152-181 | ownership is persisted before any bridge is enabled; every state on the way is safe; without faults it succeeds exactly when every bridge to be enabled exists |
| HostportsGuard.Watcher.ApplyNative | hostports/nft.go:98-127 | every state of an nft apply is safe, whatever fails, and success settles it; a run without faults succeeds exactly when every bridge it needs exists |
| HostportsGuard.Watcher.ApplyTables | hostports/watcher.go:648-667 | the same for the iptables order of precheck, restore, commit, hook, persist, enable |
| HostportsGuard.Watcher.Apply | hostports/watcher.go:575-668 | an invalid rule set changes nothing; success leaves exactly the enabled bridges on and owned, the others restored, the compiled rules in force; without faults it succeeds exactly when the rule set is valid and every bridge it needs exists |
| HostportsGuard.ReadyExactly | hostports/route_localnet.go:130-181 | nothing stands against an apply exactly when every bridge to be on, and every one recorded as on, exists |
| HostportsGuard.Lifetime | hostports/watcher.go:575-668 | over any sequence of applies, repairs and crashes with any step failing, no state ever passed through is unsafe |
| HostnatRules.CompileIptables | hostnat/watcher.go:387-408 | the loops build the specified iptables chain, IKE first, both in key order |
| HostnatRules.CompileNft | hostnat/watcher.go:505-543 | the loops build the specified nft chain |
| HostnatRules.ValidRulesExactly | hostnat/watcher.go:456-493 | the accepted rule sets, clause by clause in terms of names, subnets and ports |
| HostnatRules.IkeMatches | hostnat/watcher.go:116-125 | one IKE endpoint is translated identically by both forms of its rule |
| HostnatRules.NetworkMatches | hostnat/watcher.go:91-105 | one managed network returns, masquerades with or without ports, or ignores a packet identically in both forms |
| HostnatRules.NatAgreement | hostnat/watcher.go:505-543 | for every rule set and packet both chains give the verdict the rule set asks for, IKE before networks, first in key order |
| HostnatReconcile.AddingRules | hostnat/watcher.go:505-543 | adding rules to an owned chain appends them in order and touches nothing else |
| HostnatReconcile.PlainScriptWorks | hostnat/watcher.go:495-497 | the plain batch commits exactly when no chain with a foreign hook is in the way, and leaves the generated chain |
| HostnatReconcile.ReplaceScriptWorks | hostnat/watcher.go:499-503 | the replacing batch commits exactly when the table exists, and leaves the generated chain alone in it |
| HostnatReconcile.WantedRules | hostnat/watcher.go:605-622 | the expected rule count is the length of the generated chain |
| HostnatReconcile.CheckNativeState | hostnat/watcher.go:589-651 | the check of a listing distinguishes a lost chain, a wrong hook and a wrong number of rules |
| HostnatReconcile.HealthIsExact | hostnat/watcher.go:589-651 | the check passes exactly when the hook is right and the rule count fits |
| HostnatReconcile.HookInFull | hostnat/watcher.go:505-512 | the hook wanted of the owned chain, written out |
| HostnatReconcile.ChosenScriptCommits | hostnat/watcher.go:193-204 | from every unhealthy state the batch that is chosen is one nft commits |
| HostnatReconcile.ReconcileRepairs | hostnat/watcher.go:185-209 | from every drift the check sees the result is healthy, equals the generated chain, keeps all other tables and is a fixed point |
| HostnatReconcile.ReconcileIsExact | hostnat/watcher.go:185-209 | after reconciling the chain is right except when rules were exchanged one for one under a right hook |
| HostnatReconcile.ExchangedRulesGoUnseen | hostnat/watcher.go:643-649 | for every rule set that asks for a rule there is such an exchange, which the check calls healthy and reconciling leaves in place |
| HostnatReconcile.Watcher.ApplyScript | hostnat/watcher.go:556-573 | either the whole batch is committed and recorded or neither tables nor record change |
| HostnatReconcile.Watcher.ReconcileNativeState | hostnat/watcher.go:185-209 | without faults drift is repaired and unhealthy is reported before healthy; with faults only a complete batch can reach the tables |
| PeerSubnets.OverlapsAny | internal/hostlabel/resolve.go:39-46 | the inner loop finds an overlap exactly when an address is shared with a prefix seen before |
| PeerSubnets.ScanHosts | internal/hostlabel/resolve.go:25-49 | the host loop succeeds exactly on resolvable, pairwise disjoint subnets and collects their texts |
| PeerSubnets.PeerSubnetsOf | internal/hostlabel/resolve.go:20-52 | the sorted peers, or an error exactly when an active remote host has no IPv4 prefix or two subnets share an address |
| PeerSubnets.ExpectedIgnoresOrder | internal/hostlabel/resolve.go:20-52 | the order of the hosts changes neither success nor the result |
| PeerSubnets.PeersAvoidLocal | internal/hostlabel/resolve.go:39-46 | every accepted peer is disjoint from the local subnet |
| CidrText.AddressExactly | internal/hostlabel/resolve.go:24-27 | a text reads as an address exactly when it is that address in dotted decimal without leading zeros |
| CidrText.PrefixExactly | internal/hostlabel/resolve.go:24-27 | a text reads as a prefix exactly when it is address, slash and length, written canonically |
| PeerTexts.TrimExactly | internal/hostlabel/resolve.go:60-64 | trimming drops blank ends and nothing else |
| PeerTexts.ResolveReads | internal/hostlabel/resolve.go:56-73 | a reference to a label that holds a network's own address and mask, blanks around both allowed, resolves to that text |
| PeerTexts.ResolveMeans | internal/hostlabel/resolve.go:56-73 | every reference that resolves has this form |
| PeerTexts.PeersExactly | internal/hostlabel/resolve.go:20-52 | the result is sorted and lists exactly the label texts of the other active hosts |
| PeerTexts.AcceptedExactly | internal/hostlabel/resolve.go:20-52 | the call succeeds exactly on literals and where all other active hosts resolve and all subnets, the local one included, are disjoint |
| PerHostTraffic.NetworkVerdicts | hostnat/watcher.go:91-105 | inside the overlay the own network's peer rule decides and no other network has a say |
| PerHostTraffic.OverlayIsNotTranslated | hostnat/watcher.go:91-125 | traffic between the local subnet and a peer, in either direction, is never source-translated by either backend |
| PerHostTraffic.PeerIngressIsAccepted | hostports/watcher.go:626-628 | peer-to-local traffic leaving by the bridge is accepted by both FORWARD chains in any connection state |
| KeyLock.RefsFollow | internal/keylock/keylock.go:30-43 | the counter moves exactly when a caller starts or stops using the entry |
| KeyLock.DeleteStrandsNobody | internal/keylock/keylock.go:40-42 | deleting an unused entry never leaves another caller with it |
| KeyLock.StepKeepsInv | internal/keylock/keylock.go:20-46 | every step of every caller keeps the invariant |
| KeyLock.RefsAreExact | internal/keylock/keylock.go:30-43 | in every reachable state `refs` is the number of callers waiting on, holding or still releasing the entry |
| KeyLock.OneEntryPerKey | internal/keylock/keylock.go:25-33 | callers of one key share the entry in the map, and at most one holds it |
| KeyLock.QuietMapIsEmpty | internal/keylock/keylock.go:40-42 | when no caller is active the map is empty |
| KeyLock.RepeatedUnlockIsNoOp | internal/keylock/keylock.go:34-45 | once the closure has run, calling it again never changes anything |
| KeyLock.SomebodyCanMove | internal/keylock/keylock.go:20-46 | while a call is unfinished some caller can take a step |
| KeyLock.StepsLeadOn | internal/keylock/keylock.go:20-46 | every step brings its caller exactly one statement nearer to its end and moves nobody else |
| KeyLock.LoneCall | internal/keylock/keylock.go:20-46 | a lock and unlock that nothing comes between take ten steps, the fifth of which gives the lock, and leave the map as it was |
| NetworkManager.AppendKeepsNoRepeat | network/state.go:77-84 | recording an up that differs from the latest event keeps equal ups separated |
| NetworkManager.LogKept | network/manager.go:102-165 | every step keeps the recorded times equal to the latest event of each container |
| NetworkManager.EffectKeepsChains | network/manager.go:94-100 | a step makes at most one CNIAdd call or one retry of its chain, and the chain's bound survives |
| NetworkManager.StepKeepsInv | network/manager.go:49-128 | every step of every evaluation keeps the invariant |
| NetworkManager.UpsAreSeparated | network/manager.go:49-128 | in every interleaving two equal ups of a container have a stop or another up between them, given a non-empty start time |
| NetworkManager.EmptyTimeRepeats | network/manager.go:53-91 | a run in which a container with an empty start time is brought up twice with nothing in between |
| NetworkManager.SeparatedExactlyWhen | network/manager.go:53-128 | repeated ups are separated in every run if and only if the start time is not empty |
| NetworkManager.AddsAreBounded | network/manager.go:94-128 | an evaluation and all its retries make at most 16 CNIAdd calls |
| NetworkEvaluation.StepsLeadOn | network/manager.go:49-165 | every statement of an evaluation leads on, and it ends by giving the lock back |
| NetworkEvaluation.EvaluationInFull | network/manager.go:49-165 | an evaluation nothing comes between brings up exactly the running container it has not recorded with that start time, takes down exactly the recorded one that does not run, starts a retry exactly for a failed CNIAdd with fewer than 15 behind it, and gives the lock back |
| NetworkEvaluation.SomebodyCanMove | network/manager.go:49-52 | an unfinished evaluation can go on itself or waits for one of the same container that can |
| CniDisk.Disk.MkdirAll | cniconf/files.go:57-62 | at every moment only missing directories on the way have been added |
| CniApply.CheckConfigDirectory | cniconf/files.go:42-55 | passes exactly when every component is missing or a directory |
| CniApply.PrepareConfigFiles | cniconf/files.go:79-103 | passes exactly when every name, target and content is acceptable; the result is sorted whatever the map order |
| CniApply.PrepareLegacyRetirement | cniconf/files.go:155-209 | chooses the other platform file as specified by `Select`, and never changes anything; `ChosenExactly` and `RefusedExactly` say what that is |
| CniOwnership.ChosenExactly | cniconf/files.go:155-209 | a file is chosen exactly when the requested file alone is one of the two platform names, both files hold the full name, type and ipam of their contracts, and the backup fits |
| CniOwnership.PartlyOwnedIsRefused | cniconf/files.go:196-203 | an old file that agrees in some but not all fields is refused |
| CniOwnership.RefusedExactly | cniconf/files.go:155-209 | a migration is refused exactly when the file to be retired is irregular, unreadable as a contract, partly owned, or its backup differs |
| CniOwnership.ForeignFileIsKept | cniconf/watcher.go:129-174 | a file that is not requested and does not fully hold the platform's contract of its name keeps its bytes at every moment of every apply, whatever fails |
| CniOwnership.NamesAreComponents | cniconf/files.go:28-40 | the accepted names are exactly those of letters, digits, dots, dashes and underscores that are no dot path, so single path components |
| CniOwnership.PlainApplySucceeds | cniconf/watcher.go:129-174 | without faults and without a platform file among the requests, an apply for a network that is not the default succeeds exactly when nothing stands in its way, and otherwise changes nothing |
| CniApply.CheckBackup | cniconf/files.go:221-236 | passes exactly when the backup is missing or byte-equal |
| CniApply.WriteConfigAtomic | cniconf/files.go:105-137 | at every moment the file is the old one or the new one; without faults it fails only for a missing directory or an irregular file |
| CniApply.ReplaceManagedSymlink | cniconf/files.go:270-295 | at every moment the old link or the new one is there, and only a missing or existing link is replaced |
| CniApply.Retire | cniconf/files.go:238-262 | one step moves the file to its backup, or removes it when an equal backup exists |
| CniApply.LinkManaged | cniconf/watcher.go:153-162 | `managed.d` leads to the default network's directory afterwards and nothing else changed |
| CniConf.WriteKeeps | cniconf/files.go:105-137 | while a requested file is written, every path stays within what the plan permits |
| CniConf.RelinkKeeps | cniconf/files.go:270-295 | while the link is replaced, every path stays within what the plan permits |
| CniConf.RetireKeeps | cniconf/files.go:238-262 | retiring after everything is in place keeps the bytes in the backup and completes the migration |
| CniConf.LinksLeadOn | cniconf/watcher.go:155-157 | removing or adding regular files does not change where `managed.d` leads |
| CniApply.Execute | cniconf/watcher.go:143-164 | directory, files, link, retirement in this order keep the plan's promises at every moment |
| CniApply.Watcher.Apply | cniconf/watcher.go:129-174 | under any failure or crash a retired file survives at its path or its backup, unrelated paths are unchanged, and success means all contents are valid and in place with the old file inactive; a refused retirement changes nothing; without faults the result is the specified one |
| CniMoves.MoveSucceeds | cniconf/watcher.go:129-174 | from any fitting state an upgrade or rollback succeeds with the specified tree |
| CniMoves.MoveSettles | cniconf/files.go:155-262 | it leaves exactly the requested file active, stays repeatable and loses no bytes |
| CniMoves.MoveIsIdempotent | cniconf/watcher.go:129-174 | repeating the last apply leaves the tree as it is |
| CniMoves.MovesConverge | cniconf/watcher.go:129-174 | in every finite sequence of upgrades and rollbacks each apply succeeds, the last request alone is active, all bytes stay recoverable, and a repetition changes nothing |
| CniCrash.InterruptedMoveStaysReady | cniconf/watcher.go:129-174 | whatever tree an interrupted upgrade or rollback leaves, the next apply can start from it and no bytes are lost |
| CniCrash.MovesConvergeAfterCrashes | cniconf/watcher.go:129-174 | after any number of interrupted moves undisturbed ones succeed and settle on the last request, with everything recoverable that was at the beginning |
| CniCrash.TryMove | cniconf/watcher.go:129-174 | every tree one apply passes through, whatever fails, is ready for the next |
| CniCrash.Lifetime | cniconf/watcher.go:129-174 | over any sequence of moves and crashes with any operation failing, every tree ever recorded is ready and complete |
| BinExec.CompareVersions | binexec/watcher.go:391-413 | the sign of the first difference under zero padding |
| BinExec.OlderIsTransitive | binexec/watcher.go:391-413 | older-than composes with itself and with equality |
| BinExec.VersionsAreTotal | binexec/watcher.go:391-413 | any two versions compare |
| BinExec.PreferProvider | binexec/watcher.go:342-353 | prefers numeric over other, newer over older, then the smaller id |
| BinExec.PreferenceInFull | binexec/watcher.go:342-353 | which of two providers is preferred, case by case |
| BinExec.VersionsInFull | binexec/watcher.go:391-413 | after a common front the greater number decides, and missing numbers are zero |
| BinExec.OutranksIsStrict | binexec/watcher.go:342-353 | the preference is irreflexive and asymmetric |
| BinExec.OutranksIsTotal | binexec/watcher.go:342-353 | of two distinct ids one is preferred |
| BinExec.OutranksIsTransitive | binexec/watcher.go:342-353 | the preference is transitive, across numeric and other versions |
| BinExec.BestIsUnique | binexec/watcher.go:216-220 | a name has at most one best provider |
| BinExec.BestStaysBest | binexec/watcher.go:216-220 | replacing the current best when a candidate is preferred keeps it best among all seen |
| BinExecDrivers.JoinsExactly | binexec/watcher.go:171-175 | a service joins exactly when its primary is a driver or joined earlier in the list |
| BinExecDrivers.CollectedExactly | binexec/watcher.go:163-175 | the map holds drivers and the services that chain to one in list order, each key standing for the last such service |
| BinExecDrivers.CollectDrivers | binexec/watcher.go:163-175 | the two passes collect exactly these services |
| BinExecDrivers.KeysInFull | binexec/watcher.go:163-175 | keys of services are equal exactly for one stack and one name |
| BinExecDrivers.SidekickOrderMatters | binexec/watcher.go:171-175 | a sidekick of a sidekick is found when listed behind it and missed when listed before it |
| BinExecWatcher.SeenAuthorizes | binexec/watcher.go:177-194 | a container is authorized for a name exactly when some collected service lists it with that label on this host |
| BinExecWatcher.Consider | binexec/watcher.go:178-223 | one container keeps the selection best, complete and the unknown answers recorded |
| BinExecWatcher.KeepUncertain | binexec/watcher.go:225-231 | a previous target is kept exactly where nothing runs and its own answer was unknown |
| BinExecWatcher.SelectProviders | binexec/watcher.go:177-236 | whatever the map order, each name gets its best running authorized provider, else its previous one while authorized and unknown, else nothing; an error is reported exactly for a bad label, a failed inspection or an offered name without provider |
| BinExecWatcher.DesiredIsUnique | binexec/watcher.go:177-231 | there is only one such selection |
| BinExecWatcher.DesiredIsStable | binexec/watcher.go:225-231 | selecting again with it in force selects it again |
| BinExecWatcher.Watcher.InstallAll | binexec/watcher.go:284-311 | each name's record and file change as its own target, answer and writability say |
| BinExecWatcher.Watcher.RemoveStale | binexec/watcher.go:313-327 | a name that is gone or no longer wanted is forgotten and its own exact wrapper, and nothing else, unlinked; where that fails it stays recorded and is reported |
| BinExecWatcher.Watcher.Apply | binexec/watcher.go:269-334 | the outcome of every name is a function of that name's own target, answer and file, written out in `RunningIsInstalled`, `GoneIsRemoved`, `OthersAreKept` and `StrangersAreLeft`; without file faults a name that lost its provider has no file equal to its old wrapper; errors are reported exactly when some name had one |
| BinExecWatcher.OutcomeIsOwn | binexec/watcher.go:303-326 | a file changes only into the recorded provider's wrapper, or disappears when it was the previous one's |
| BinExecWatcher.RunningIsInstalled | binexec/watcher.go:284-311 | a wanted running provider gets its record and its wrapper, or where that cannot be written the name keeps what it had and is reported |
| BinExecWatcher.GoneIsRemoved | binexec/watcher.go:313-327 | a recorded provider that is no longer wanted, or missing or not running, loses its record and its own exact wrapper; if that cannot be unlinked both stay and the name is reported |
| BinExecWatcher.OthersAreKept | binexec/watcher.go:284-302 | a wanted provider in an unknown state, or one that does not run and is not recorded, changes nothing and is reported |
| BinExecWatcher.CleanInFull | binexec/watcher.go:177-236 | a selection has nothing to report exactly when every local container with a binary label has a valid name, a known state and a provider for that name |
| BinExecWatcher.DesiredIsInstalled | binexec/watcher.go:284-311 | without file faults what is desired is what gets recorded, and a running provider's wrapper is written |
| BinExecWatcher.SuccessIsInstalled | binexec/watcher.go:284-333 | a name without an error has exactly the wanted target and its wrapper |
| BinExecWatcher.Watcher.OnChange | binexec/watcher.go:142-248 | success means every name has its desired provider with its wrapper on disk and nothing to report; without file faults names are as desired in any case, a name that lost its provider has no file equal to its old wrapper, and the result is an error exactly when the selection had one; whatever fails, foreign files are not removed |
| PlatformHook.FindTarget | internal/firewall/backend.go:366-376 | the loop finds the target that `TargetExactly` describes |
| PlatformHook.TargetExactly | internal/firewall/backend.go:366-376 | a rule line of at least four words jumps to the word behind its first jump or goto flag from the third word on; no other line jumps |
| PlatformHook.PlainJumpIsLive | internal/firewall/backend.go:378-396 | an unconditional jump from a built-in chain into a platform chain is live |
| PlatformHook.NoJumpIsNotLive | internal/firewall/backend.go:378-396 | nothing is live where no line jumps into a platform chain |
| PlatformHook.CollectJumps | internal/firewall/backend.go:365-377 | the map holds exactly the jump edges of the listing |
| PlatformHook.ClosedHoldsPath | internal/firewall/backend.go:381-396 | a set closed under jumps that holds the hooks holds every chain a packet can reach |
| PlatformHook.Expand | internal/firewall/backend.go:390-395 | one chain's jumps are all queued, or one of them enters a platform chain |
| PlatformHook.FindPlatformHook | internal/firewall/backend.go:360-398 | terminates on cycles and answers exactly when a platform chain is reachable from a built-in hook, with a line that enters it |
| PlatformHook.HasDockerNatChain | internal/firewall/backend.go:341-358 | true exactly when the chain is declared and hooked |
| PlatformHook.DockerOwnsExactly | internal/firewall/backend.go:341-358 | declared and hooked, in terms of the lines' words |
| PlatformHook.HasForwardDropPolicy | internal/firewall/backend.go:400-408 | true exactly when the policy line is listed |
| XtFrontend.ReadLegacy | internal/firewall/backend.go:222-232 | a legacy table is listed only when it is loaded |
| XtFrontend.DetectDockerXTFrontend | internal/firewall/backend.go:193-279 | a mode is returned exactly when Docker's hooked NAT chain is in that frontend alone and the other one is free of live platform chains and forward drops; unloaded legacy tables are never listed |
| XtFrontend.NftFrontendExactly | internal/firewall/backend.go:302-331 | which command speaks for the nft frontend, and when there is none |
| XtFrontend.LegacyFrontendExactly | internal/firewall/backend.go:284-297 | when the legacy command may be used |
| XtFrontend.NftQualifiesExactly | internal/firewall/backend.go:193-279 | when nft is reported, in terms of the commands' answers and the loaded tables |
| XtFrontend.LegacyQualifiesExactly | internal/firewall/backend.go:193-279 | the same for legacy |
| XtFrontend.CheckNativeMigration | internal/firewall/backend.go:119-155 | passes exactly when neither existing nor loaded xtables frontend holds an earlier hook or forward drop |
| XtFrontend.MigratableExactly | internal/firewall/backend.go:119-173 | when the check passes, in terms of the commands' answers and the loaded tables |
| Conntrack.BuildContainersMap | conntracksync/watcher.go:129-167 | each published key maps to the last local container that publishes it |
| Conntrack.PublishedWithProtocol | conntracksync/watcher.go:148-162 | `ip:port:target/proto` publishes `ip:port/proto` |
| Conntrack.PublishedWithoutProtocol | conntracksync/watcher.go:148-162 | without a protocol it is TCP |
| Conntrack.PublishedMeans | conntracksync/watcher.go:150-156 | only a text of three parts publishes anything |
| Conntrack.StaleExactly | conntracksync/watcher.go:80-123 | which container answers for an entry, the specific address before 0.0.0.0, and that the entry is stale exactly when that container has another known address |
| Conntrack.UnansweredIsNotStale | conntracksync/watcher.go:85-91 | an entry nobody answers for is not stale |
| Conntrack.PatternInFull | conntracksync/conntrack/conntrack.go:62-71 | entries are deleted together exactly when they differ only in source port and reply ports |
| Conntrack.SyncDnat | conntracksync/watcher.go:74-98 | only flows sharing a stale entry's pattern go, and without faults all of them, in whatever order they are listed |
| Conntrack.SyncSnat | conntracksync/watcher.go:100-124 | the same for source-translated entries |
| Conntrack.DoSync | conntracksync/watcher.go:67-127 | without faults the table afterwards is determined by the table before and the published ports |
| Conntrack.DnatDeletesOnlyStale | conntracksync/conntrack/conntrack.go:62-71 | of the destination-translated flows exactly the non-stale remain, and no flow that is not stale is lost |
| Conntrack.FailedDnatDeletesOnlyStale | conntracksync/watcher.go:92-97 | failed deletes never cost a flow that is not stale |
| Conntrack.SnatDeletesTooMuch | conntracksync/watcher.go:106-124 | two flows of which only one is stale and both are deleted |
| Conntrack.SnatSparesTableExactlyWhen | conntracksync/watcher.go:106-124 | a table loses no good source-translated flow if and only if its source-translated flows with one delete pattern are stale together |
| Conntrack.PartedPortsLose | conntracksync/conntrack/conntrack.go:62-71 | two ports of an address of which one has a known owner and the other not the same one give a listable table that loses a good flow |
| Conntrack.LossPartsPorts | conntracksync/watcher.go:106-124 | every loss in a listable table comes from two such ports |
| Conntrack.SnatIsSafeExactlyWhen | conntracksync/watcher.go:106-124 | no table that can be listed loses a good source-translated flow if and only if no address has two such ports |

## Left out

- HostportsGuard: hostnat's `enableLocalNetRouting` (`hostnat/watcher.go:360-374`) writes the same sysctl without a guard, so hostports is taken as its only writer.
- HostportsGuard: other actors changing sysctls, guards or files between steps; drift appears only in `HostnatReconcile`.
- HostportsGuard: where the jumps other than FORWARD's stand in their built-in chains.
- HostportsRules: building rule sets from metadata (`onChangeLocked`, `bridgeConfigForNetwork`, `addIKESNATRules`, `networkToRule`) and resolving container addresses through Docker and netlink; ports and addresses enter parsed, with 0 for `0.0.0.0`.
- Netfilter: the text of rules, shell quoting and JSON decoding; listings enter as decoded items, rule texts as matches and actions.
- HostnatReconcile: flushing and sweeping IKE conntrack entries (`hostnat/watcher.go:653-727`), and the sysctl values that `EnableLocalRouting` writes.
- NetworkManager: writing network state to disk (`network/state.go:86-132`) and editing hosts files; only their success or failure enters.
- KeyLock: fairness of Go's mutexes; the model proves that someone can always move, not that everyone eventually does.
- PeerSubnets: IPv6 texts, which the code rejects after parsing and the model rejects as not IPv4.
- CniDisk: links inside a path's parents (the code refuses such directories before it uses them), file modes and owners.
- CniApply: which networks are configured on a host (`localCNINetworks`) and the loop of `onChange` over them; the writer parameter of `applyWithWriter` is the real writer.
- BinExec: parsing version texts into numbers (`numericVersionParts`); versions enter as numbers or as not numeric.
- BinExecWatcher: the wrapper script's text, taken as determined by target and name; the texts of error messages; `lastApplied` and the timers, which become the `force` flag; container answers are taken as stable during one pass.
- XtFrontend: the error texts that mark an unsupported kernel, and `Resolve`, `SelectDockerXTMode` and the Docker version rule, which are single branches.
- Conntrack: parsing `conntrack -L` lines; entries enter as their fields, and `Listable` says which fields a line can have.
- Wall-clock intervals, tickers and logging everywhere.
- arpsync, macsync, routesync, the reaper, readiness, identity, the event worker pool and the resolv.conf rewrite, which would add only easy members.
