# EdgeRoute verification

EdgeRoute keeps a table of NAT mappings, renders it to an nftables ruleset and pushes that to the kernel,
together with the addresses of the WAN interface. This project models those parts and proves what they keep.

- `Addresses`, `Text`, `Wrappers`: IPv4 addresses, CIDR blocks, decimal and dotted texts, lines.
- `Mappings`, `Validation`: the entities, and which mappings and lists are accepted.
- `Checklist`: which mappings and configurations those are, as one list of conditions each.
- `Ruleset`, `Render`, `Renderer`: the ruleset as a value with a packet semantics, its text, and the renderer.
- `NftFile`, `ReadBack`: a reader of nft files with its own packet semantics, and what it finds in that text.
- `Xdp`: the second back end over the same rows.
- `RowCodec`, `Tables`, `SqliteStore`, `InMemoryStore`: columns and database guards, each statement as one
  atomic step on a table, the SQL store as an object over encoded rows, and the in-memory store.
- `Interleaving`: many clients of the SQL store, each between the steps of its call with a snapshot that may
  be stale.
- `Reconciling`, `Reconciler`: reconcile and rollback as a machine that makes one external call a step, and as
  methods that change a host and are proved to run that machine. The environment answers each call: it
  succeeds, is refused, or is lost with or without having taken effect.
- `Provenance`, `LatestActive`, `AddressLoop`, `Convergence`: what all schedules, serial histories and
  successful runs of that machine keep or reach. `Convergence.StoredRowsGovernPackets` joins store, renderer,
  reader and reconciler into one statement from rows to packets.
- `PartialRuns`: dry runs, calls that apply only a part, and calls that fail.
- `Agent`, `AgentCalls`: serial runs of the agent, the delete in particular.
- `Oci`, `OciCleanup`, `CloudAgent`: allocating and releasing cloud addresses with compensation.
- `Moving`: what an allocation does to the addresses and rules of a row already in force.
- `Site`, `OciRuns`, `Scenarios`: a small site and concrete runs on it.

Some properties that a user of the system may expect do not hold. For each of them the project proves when it
holds, and gives a run on which it does not:

- Validation accepts the stored list at all times: exactly while no write on a stale snapshot brings in a public
  address that a one-to-one row claims or a row that the present configuration rejects, and no new configuration
  rejects a stored row (`Interleaving.InterleavedListAccepted`, `Interleaving.InterleavingCanLeaveARejectedList`,
  `Interleaving.ReconfiguringCanLeaveARejectedList`). Serial runs under one configuration keep it.
- The two stores agree: exactly until SQL refuses to enable a row or a new configuration fails a stored row
  (`InMemoryStores.StoresAgree`, `InMemoryStores.StoresPartOnAnEnable`,
  `InMemoryStores.StoresPartOnAConfiguration`).
- A repeated reconcile reports no change: exactly when no address is shared by an enabled and a disabled nft row,
  as the last row that names an address decides (`Convergence.SecondReconcileReports`,
  `AddressLoop.EnabledRowLosesItsAddress`).
- The latest active generation is the live one: after any rollback, exactly when nothing or that text was loaded,
  or the log makes no claim
  (`LatestActive.RollbackLeavesLatestActive`, `Scenarios.RollbackLeavesTheLogBehind`).
- A failed release can be tried again: exactly when it changed nothing, every resource of the row is there and the
  row is valid without its address
  (`OciCleanup.FailedReleaseCompletesExactly`, `OciRuns.CutShortReleaseSticks`).
- A delete completes when every call is answered: exactly when the row is there and no other enabled row asks for
  XDP (`AgentCalls.DeleteCompletesExactly`, `Scenarios.XdpRowBlocksTheDelete`).
- A delete leaves no cloud resource behind: exactly when the row refers to none that is live
  (`OciCleanup.RemovalLeaksExactly`, `OciRuns.RemovedRowLeaks`).
- An allocation orphans nothing: exactly when the row's old address was not added, stays the same or is named
  elsewhere, and likewise for its rule (`Moving.AllocationOrphansExactly`, `Scenarios.AllocationOrphans`).

Run `dafny verify dfyconfig.toml` to check everything.

## Model

| member | source | states |
|---|---|---|
| Addresses.ContainsIsRange | crates/edge-core/src/mapping.rs:189-191 | A CIDR block holds an address exactly when the address lies between its network and its broadcast address, for every prefix 0 to 32 (RFC 4632, section 3.1). |
| Addresses.BlockEnds | crates/edge-core/src/validation.rs:283-289 | Network and broadcast address enclose the base address and both fit in 32 bits, for every prefix. |
| Addresses.PrivateIsRfc1918 | crates/edge-core/src/validation.rs:241-249 | The octet test for private addresses is membership of the three blocks of section 3 of RFC 1918. |
| Addresses.ReservedIsBlocks | crates/edge-core/src/validation.rs:267-281 | The octet test for addresses that are not routable is membership of those or of eleven listed blocks. |
| Text.ParseDecExact | crates/edge-store/src/lib.rs:675-679 | A decimal text is read as an octet exactly when it is that number as printed, without sign or leading zero, and in range. |
| Text.ParseAddrText | crates/edge-store/src/lib.rs:675-679 | Reading a dotted-decimal address gives back the address it was printed from. |
| Text.SplitJoin | crates/edge-nft/src/render.rs:41-100 | Lines without line breaks survive being written one after another and split again. |
| Text.TrimExact | crates/edge-core/src/validation.rs:184-186 | Trimming gives the one core of a text: only whitespace around it and none at its ends. |
| Text.LessExact | crates/edge-store/src/lib.rs:377-385 | The text order is that of the first difference, a text coming before its extensions. |
| Checklist.MappingAcceptedExactly | crates/edge-core/src/validation.rs:30-113 | A mapping is accepted exactly when a list of conditions all hold, and otherwise the first that fails is reported: well-formed name, routable public address, RFC 1918 edge address, target in a configured block and inside the first that holds it, edge address not the target, XDP only for port forwards, no proxy; then no public port, target port not 0 and protocol all for one-to-one, both ports present and not 0 and TCP or UDP for a port forward. The check that public and edge address differ is not among them: it can never fire. |
| Checklist.ConfigAcceptedExactly | crates/edge-core/src/validation.rs:9-28 | Likewise an edge configuration: both interface names trimmed to 1 to 15 UTF-8 bytes without slash or NUL, neither dot nor dots; at least one network; none with the unspecified address. |
| Checklist.ConflictsExactly | crates/edge-core/src/validation.rs:148-167 | Two valid mappings conflict exactly when both are on and some packet is owned by both, or both hand a whole address to one target. |
| Validation.TargetAcceptedExactly | crates/edge-core/src/validation.rs:251-265 | A target is accepted exactly when some block holds it and the first such block is a /31 or /32 or holds it strictly between network and broadcast. |
| Validation.AcceptedTargetIsCovered | crates/edge-core/src/validation.rs:251-265 | The target of a valid mapping lies in a configured CIDR. |
| Validation.ValidateMappings | crates/edge-core/src/validation.rs:115-146 | A list is accepted exactly when each member is valid and no two members clash; otherwise the error is that of the first invalid member or else of the first clashing pair. The early return on the set of public addresses is unreachable. |
| Validation.PairErrorNamesSharedAddress | crates/edge-core/src/validation.rs:169-182 | The fallback error for an unnamed conflict is unreachable, every other error names the address that the pair shares, and of several reasons a conflict comes before a shared public address and in it the target before the edge address. |
| Validation.AcceptsAnyOrder | crates/edge-core/src/validation.rs:115-146 | Acceptance does not depend on the order of the rows. |
| Validation.AcceptsSwitchedOff | crates/edge-core/src/validation.rs:115-167 | Switching any row off keeps an accepted list accepted. |
| Validation.AcceptsWithout | crates/edge-core/src/validation.rs:115-167 | Removing any row keeps an accepted list accepted. |
| Ruleset.RewriteHasClaimant | crates/edge-nft/src/render.rs:24-87 | Whatever the compiled chain rewrites is rewritten to what some enabled nft row prescribes, for any list, accepted or not. |
| Ruleset.OneClaimant | crates/edge-nft/src/render.rs:22-39 | In an accepted list at most one row claims a given packet. |
| Ruleset.CompileCorrect | crates/edge-nft/src/render.rs:22-87 | For every accepted list and every packet, rules in order and then the map lookup give exactly the target address and port that the claiming row prescribes, and leave a packet alone that no row claims. |
| Ruleset.OrderIrrelevant | crates/edge-nft/src/render.rs:22-87 | Permuting an accepted list changes what happens to no packet. |
| Ruleset.RewrittenIsMasqueraded | crates/edge-nft/src/render.rs:91-97 | Every packet that prerouting rewrites matches a masquerade rule when it leaves on the NetBird interface. |
| Ruleset.OffCompilesAsRemoved | crates/edge-agent/src/api.rs:125-147 | A list with a row switched off compiles to the same ruleset as the list without the row, so the last step of a delete changes no forwarding. |
| Renderer.RenderNftables | crates/edge-nft/src/render.rs:17-101 | Rendering succeeds exactly on accepted lists, its text is that of the compiled ruleset, read as an nft file it governs packets as the rows say, and a refusal explains the list. |
| Renderer.AcceptedTextGoverns | crates/edge-nft/src/render.rs:22-100 | For every accepted list and every packet: run through the chains, hooks, statements and map that a reader finds in the text, the prerouting chain sends the packet where the row that claims it says and leaves it alone if none does, the postrouting chain masquerades exactly what leaves on the NetBird interface for a configured network, and the file replaces its own table. |
| Renderer.CollectForwards | crates/edge-nft/src/render.rs:62-79 | On valid rows both ports are present and the protocol is never `all`, so neither `expect` nor `unreachable!` is reached. |
| Renderer.RenderParts | crates/edge-nft/src/render.rs:41-100 | Pushing line after line yields the map, the forward rules, the blank line of an empty map and the masquerade rules in their places. |
| ReadBack.ReadsFile | crates/edge-nft/src/render.rs:41-100 | The text is read, line by line, as a file with one map and two hooked chains: the forward rules and then the map lookup, and the masquerade rules. |
| ReadBack.FileRuns | crates/edge-nft/src/render.rs:41-100 | A packet run through that file meets the verdict of the ruleset, and gets its source translated exactly if the ruleset says so. |
| ReadBack.ReadsBack | crates/edge-nft/src/render.rs:41-100 | The ruleset itself is recovered from the text. |
| ReadBack.TextDeterminesRuleset | crates/edge-nft/src/render.rs:41-100 | Equal texts are texts of equal rulesets. |
| ReadBack.CompiledIsReadable | crates/edge-nft/src/render.rs:62-97 | For interface names without quotes and line breaks every compiled ruleset can be read back. |
| Xdp.MakePlan | crates/edge-xdp/src/lib.rs:126-153 | Planning in order, stopping at the first row that has no entry, gives the plan or the error of that row; for an accepted list the entries govern packets as the rows say. |
| Xdp.AcceptedPlanGoverns | crates/edge-xdp/src/lib.rs:172-221 | For an accepted list and every packet, looking it up by edge address, protocol number and port finds target address, target port, no flags, id and name of the enabled XDP row that names that tuple, and nothing if no row does. |
| Xdp.AcceptedRowsPlan | crates/edge-xdp/src/lib.rs:172-221 | Each enabled XDP row of an accepted list has its entry, in order, and no two entries share a key. |
| Xdp.AcceptedListPlans | crates/edge-xdp/src/lib.rs:126-170 | For an accepted list planning never reports a mapping error, and succeeds exactly when the XDP settings are valid and XDP is on or no row asks for it. |
| Xdp.KeyDecodes | crates/edge-xdp/src/lib.rs:85-93 | Eight bytes decode to a key exactly when they are the bytes of that key, so keys are injective. |
| Xdp.ValueDecodes | crates/edge-xdp/src/lib.rs:102-109 | Eight bytes decode to a value exactly when they are the bytes of that value, and every eight bytes do. |
| Xdp.KeyBytes | crates/edge-xdp/src/lib.rs:85-93 | The buffer filled for a key holds its bytes in network order. |
| Xdp.ValueBytes | crates/edge-xdp/src/lib.rs:102-109 | So does the buffer filled for a value. |
| Xdp.BackendsPartition | crates/edge-xdp/src/lib.rs:126-132 | Each enabled row of an accepted list appears in exactly one of map elements, forward rules and XDP entries. |
| Xdp.NftIgnoresXdpTraffic | crates/edge-xdp/src/lib.rs:172-221 | The nft chain translates no packet that an XDP entry claims. |
| RowCodec.RowRoundTrip | crates/edge-store/src/lib.rs:614-652 | A row decodes to the mapping it was written from exactly when the id is trimmed and not empty and no port is zero. |
| RowCodec.ValidIsStorable | crates/edge-store/src/lib.rs:335-363 | A valid mapping with a trimmed id is one of those. |
| RowCodec.GuardsExact | crates/edge-store/src/lib.rs:20-119 | Over the stored texts, indexes and triggers refuse a row beside another exactly when both are enabled and clash, given that a port forward carries its public port. |
| RowCodec.NullPortsPassTheGuards | crates/edge-store/src/lib.rs:30-32 | For a port forward without that port, as NULLs are distinct in a unique index, the guards fall short of the clashes exactly beside another enabled port forward of the same edge address and protocol without port. |
| Tables.CheckedRowIsAdmitted | crates/edge-store/src/lib.rs:581-611 | A row that passes the application check against a table trips no index and no trigger on it. |
| Tables.RowCheckExact | crates/edge-store/src/lib.rs:581-611 | The check against one stored row passes exactly when the two do not clash and are not both one-to-one to the same target; its error names the shared address, the public one first, then the target, then the edge address. |
| Tables.WritesSetTheRow | crates/edge-store/src/lib.rs:327-438 | An insert adds its row as it is, an update replaces the row but for its creation time, a delete takes the row out; every other row stays, and what fails changes nothing. |
| Tables.SwitchSetsTheRow | crates/edge-store/src/lib.rs:440-459 | Switching sets switch, matching status and time, and no other field or row. |
| Tables.HealthSetsTheRow | crates/edge-store/src/lib.rs:461-483 | A health report sets its four fields and the time, and no other field or row. |
| Tables.SqlExecKeepsAccepted | crates/edge-store/src/lib.rs:327-459 | Every serial operation keeps every row valid and the rows, disabled ones included, free of clashes; and it keeps any two rows passing the application check against each other. |
| Tables.SqlRunKeepsAccepted | crates/edge-store/src/lib.rs:327-459 | So does every serial run under a fixed configuration; from an empty table on, even switched-off one-to-one rows have distinct targets. |
| Tables.SqlExecKeepsExclusive | crates/edge-store/src/lib.rs:327-459 | Whatever the configuration is or becomes, serial operations keep any two rows passing the application check. |
| Tables.AdmittedWriteAcceptedExactly | crates/edge-store/src/lib.rs:588-597 | A valid row that the guards admit keeps an acceptable table acceptable exactly when it shares its public address with no other row where either is one-to-one. |
| Tables.SortRows | crates/edge-store/src/lib.rs:377-385 | Inserting row after row in order gives the one listing of the table. |
| Tables.HealthKeepsAccepted | crates/edge-store/src/lib.rs:461-483 | A health report keeps all of this. |
| Tables.ListingAccepted | crates/edge-store/src/lib.rs:377-385 | Validation accepts the listing of a table exactly when the table is acceptable, so rendering never fails on what serial operations stored. |
| Tables.ListingUnique | crates/edge-store/src/lib.rs:377-385 | Creation time and then id order the rows totally: a table has one listing. |
| Tables.OldestFirst | crates/edge-store/src/lib.rs:377-385 | In the listing older rows come first, and of two rows of one age the one with the smaller id. |
| SqliteStores.SqliteStore.SetEdgeConfig | crates/edge-store/src/lib.rs:278-291 | A configuration is stored exactly when it is valid by itself; stored rows are not looked at. |
| SqliteStores.SqliteStore.GetMapping | crates/edge-store/src/lib.rs:367-375 | The row is read back as the mapping it was written from, or reported missing. |
| SqliteStores.SqliteStore.ListMappings | crates/edge-store/src/lib.rs:377-385 | The rows read back, each once, oldest first and then by id. |
| SqliteStores.SqliteStore.RejectDuplicates | crates/edge-store/src/lib.rs:581-611 | It passes exactly when no other row fails the check, and reports the error of a row that does. |
| SqliteStores.SqliteStore.InsertMapping | crates/edge-store/src/lib.rs:327-365 | The encoded rows change as the table does, the row is added on success only, and each refusal has its reason. |
| SqliteStores.SqliteStore.UpdateMapping | crates/edge-store/src/lib.rs:397-438 | Likewise; the stored creation time stays and a missing row is reported. |
| SqliteStores.SqliteStore.SetMappingEnabled | crates/edge-store/src/lib.rs:440-459 | Likewise, under the database guards alone. |
| SqliteStores.SqliteStore.SetMappingHealth | crates/edge-store/src/lib.rs:461-483 | Likewise, with no guard. |
| SqliteStores.SqliteStore.DeleteMapping | crates/edge-store/src/lib.rs:387-395 | The row is removed and returned, or reported missing with the table unchanged. |
| SqliteStores.InsertThenGet | crates/edge-store/src/lib.rs:327-375 | Reading after a successful insert returns an equal mapping. |
| InMemoryStores.InMemoryStore.SetEdgeConfig | crates/edge-core/src/state.rs:195-204 | A configuration is stored exactly when it is valid and keeps every stored row valid. |
| InMemoryStores.InMemoryStore.ValidateForWrite | crates/edge-core/src/state.rs:153-187 | The loop over the other rows passes exactly the writes that the SQL store would check through. |
| InMemoryStores.InMemoryStore.InsertMapping | crates/edge-core/src/state.rs:206-214 | The map changes as specified, and an existing id is reported as a duplicate. |
| InMemoryStores.InMemoryStore.UpdateMapping | crates/edge-core/src/state.rs:226-235 | The row is replaced with a fresh update time when it passes the check. |
| InMemoryStores.InMemoryStore.DeleteMapping | crates/edge-core/src/state.rs:237-241 | The row is removed and returned, or reported missing with the map unchanged. |
| InMemoryStores.InMemoryStore.SetMappingEnabled | crates/edge-core/src/state.rs:243-256 | The switch is set without any check. |
| InMemoryStores.MemSetsTheRow | crates/edge-core/src/state.rs:206-256 | What each operation sets in its row, field by field; every other row stays, and what fails changes nothing. |
| InMemoryStores.StepAgrees | crates/edge-core/src/state.rs:195-256 | From one configuration and rows equal up to times, a request has the same outcome in both stores exactly when it is neither an enable that SQL refuses nor a well-formed configuration that some stored row fails; then both stay equal. |
| InMemoryStores.StoresAgree | crates/edge-core/src/state.rs:195-256 | Over a whole run, replaced configurations included, both stores report the same outcomes exactly when no such request occurs, and then end with the same configuration and rows. |
| InMemoryStores.RefusalMeansClash | crates/edge-store/src/lib.rs:440-459 | SQL refuses to enable a row exactly because it would clash with an enabled one. |
| InMemoryStores.StoresPartOnAnEnable | crates/edge-core/src/state.rs:243-256 | A run on which they part: insert, switch off, insert another row on the edge address, switch on. |
| InMemoryStores.StoresPartOnAConfiguration | crates/edge-core/src/state.rs:195-204 | A run on which they part: insert a row, then store a configuration whose target network does not hold its target. |
| Interleaving.StepIsSafe | crates/edge-store/src/lib.rs:20-119 | Each atomic step of any client, on however stale a snapshot, keeps enabled rows free of clashes. |
| Interleaving.EveryInterleavingIsSafe | crates/edge-store/src/lib.rs:327-459 | However clients interleave and wherever they fail, enabled rows never conflict and no enabled one-to-one row shares its public address with an enabled row. |
| Interleaving.FreshStoreIsSafe | crates/edge-store/src/lib.rs:20-119 | So from a fresh store no schedule of steps, changes of configuration included, leaves two enabled rows that clash. |
| Interleaving.UndisturbedCallIsSerial | crates/edge-store/src/lib.rs:327-438 | A call whose steps run back to back leaves the rows of the serial operation, and writes exactly when that succeeds. |
| Interleaving.UndisturbedStatementsAreSerial | crates/edge-store/src/lib.rs:387-459 | So are the switch statement, and the two steps of a delete left alone. |
| Interleaving.CurrentSnapshotWritesExclusively | crates/edge-store/src/lib.rs:581-611 | A write whose snapshot is not stale never shares a public address in that way. |
| Interleaving.StepAcceptedExactly | crates/edge-store/src/lib.rs:278-291 | From a safe state with acceptable rows a step keeps them acceptable under the configuration of the moment exactly when what it writes is valid and shares its public address with no row where either is one-to-one, and a configuration it stores keeps every row valid. |
| Interleaving.ListsAcceptedExactly | crates/edge-store/src/lib.rs:278-459 | Every list of a schedule is accepted exactly when each step does so, whatever configurations come and go. |
| Interleaving.InterleavedListAccepted | crates/edge-store/src/lib.rs:588-597 | The same for the schedules of a fresh store; and the list at the end is accepted under a configuration exactly when every row is valid under it and no disabled row shares its public address in that way. |
| Interleaving.OneConfigurationListAccepted | crates/edge-store/src/lib.rs:588-597 | While the configuration stays, only the shared public addresses decide. |
| Interleaving.StaleInsertRuns | crates/edge-store/src/lib.rs:581-611 | The schedule that breaks it: an insert checked before another client inserts and disables a row with the same address succeeds. |
| Interleaving.InterleavingCanLeaveARejectedList | crates/edge-store/src/lib.rs:588-597 | A concrete run of two clients of a fresh store, its last table and the rejection of the list of that table. |
| Interleaving.ReconfiguringCanLeaveARejectedList | crates/edge-store/src/lib.rs:278-291 | A serial run of one client that ends in a rejected list, as its last step replaces the configuration. |
| Reconciling.StepProgress | crates/edge-reconcile/src/lib.rs:85-292 | Every answered call brings a reconcile or rollback closer to its end. |
| Reconciling.FinishIsSteps | crates/edge-reconcile/src/lib.rs:85-292 | A finished call is one of its cut-off runs, so whatever all steps keep holds of it. |
| Reconcilers.Host.Reconcile | crates/edge-reconcile/src/lib.rs:85-250 | The reconcile, as calls in sequence with early exits over a changing host, ends in the state, result and number of calls of the machine. A dry run leaves the host as it is and reports text and XDP count exactly when it may; any other that reports success has converged; and what it is not told to apply it leaves alone, whatever fails. |
| Reconcilers.Host.PushAddresses | crates/edge-reconcile/src/lib.rs:154-175 | The loop over the rows does what the machine does from the first row on. |
| Reconcilers.Host.ProbeRows | crates/edge-reconcile/src/lib.rs:186-220 | So does the loop of health probes. |
| Reconcilers.Host.Rollback | crates/edge-reconcile/src/lib.rs:252-292 | The rollback likewise. |
| PartialRuns.DryRunChangesNothing | crates/edge-reconcile/src/lib.rs:94-102 | For every world, environment and answer a dry run makes one call, changes nothing, and reports the text of the listing, no generation, no addresses and the number of XDP rows exactly when that call is answered, the list is accepted and the XDP settings allow it; else it errs. |
| PartialRuns.RefusedStartChangesNothing | crates/edge-reconcile/src/lib.rs:85-107 | A call refused before it starts changes nothing, dry or not; so does every call that would have to apply XDP rows. |
| PartialRuns.PartialRunSpares | crates/edge-reconcile/src/lib.rs:136-220 | Whatever fails and wherever it is cut off, a reconcile not told to apply the rules keeps the live table, one not told to apply the addresses keeps them, and one not told both logs no active generation and touches no row. |
| PartialRuns.RefusalsAreLogged | crates/edge-reconcile/src/lib.rs:113-152 | When the file cannot be written, or its check or its load is refused, nothing is loaded and a failed generation follows in the log. |
| PartialRuns.UnwrittenFileIsLogged | crates/edge-reconcile/src/lib.rs:107-123 | A started call whose file cannot be written leaves a rendered and a failed generation and nothing else. |
| PartialRuns.SuccessNeedsEveryCall | crates/edge-reconcile/src/lib.rs:85-292 | A reconcile or rollback reports success only if every external call it made succeeded. |
| Provenance.EveryScheduleOk | crates/edge-reconcile/src/lib.rs:107-185 | Every schedule of calls, answers and row changes only appends to the log, and keeps the rows of each call of one text, and file and live table equal to recorded texts. |
| Provenance.ContentsComeFromTheLog | crates/edge-reconcile/src/lib.rs:107-185 | Under any interleaving of reconciles and rollbacks sharing one file, file and live table always hold the text of a recorded generation. |
| Provenance.EveryCallTellsAStory | crates/edge-reconcile/src/lib.rs:107-185 | A call's own rows carry one text and form a prefix of Rendered-Failed, Rendered-Validated-Failed or Rendered-Validated-Active. |
| LatestActive.LiveMatchesLatestActive | crates/edge-store/src/lib.rs:520-528 | In every serial history without rollback, when no validated row follows the latest active one, the live table holds the text that `latest_active_generation` returns. |
| LatestActive.RollbackEffect | crates/edge-reconcile/src/lib.rs:252-292 | Whatever fails in a rollback, log and rows stay, and the live table changes exactly when the generation exists, fetch, write and check are answered and the apply takes effect, to the text of that generation. |
| LatestActive.RollbackSucceedsExactly | crates/edge-reconcile/src/lib.rs:252-292 | A rollback reports success exactly when the generation exists and every call is answered. |
| LatestActive.RollbackLeavesLatestActive | crates/edge-reconcile/src/lib.rs:252-292 | After any rollback, whatever fails in it, the live table is still the latest active one exactly when nothing was loaded, the log makes no claim, or that text was loaded. |
| Scenarios.RollbackLeavesTheLogBehind | crates/edge-reconcile/src/lib.rs:252-292 | A run of two reconciles and a rollback after which it does not hold. |
| AddressLoop.LastRowDecides | crates/edge-reconcile/src/lib.rs:157-174 | An address is present afterwards exactly when the last nft row naming it is enabled; an address no nft row names is left alone. |
| AddressLoop.LoopIsIdempotent | crates/edge-linux/src/lib.rs:54-84 | A second run changes no address. |
| AddressLoop.UnmixedResult | crates/edge-reconcile/src/lib.rs:157-174 | When no address is shared by an enabled and a disabled nft row, the result is what was there plus the enabled addresses minus the disabled ones. |
| AddressLoop.ReportsBalance | crates/edge-reconcile/src/lib.rs:157-174 | On every list the reports balance: an address is reported as added once more than as removed exactly when the run brought it, once less exactly when it took it, else as often. |
| AddressLoop.UnmixedReports | crates/edge-reconcile/src/lib.rs:157-174 | Under that condition each missing address is reported once as added, each left-over one once as removed, and nothing else. |
| AddressLoop.SecondRunIsQuiet | crates/edge-reconcile/src/lib.rs:157-174 | A second run reports no change exactly under that condition. |
| AddressLoop.EnabledRowLosesItsAddress | crates/edge-reconcile/src/lib.rs:157-174 | An accepted list on which every run takes the address of an enabled row away and reports both changes again. |
| AddressLoop.MachineRunsLoop | crates/edge-reconcile/src/lib.rs:154-175 | With every call answered the machine runs this loop and reports these changes. |
| Convergence.FaultFreeReconcile | crates/edge-reconcile/src/lib.rs:85-250 | With every call answered, a reconcile of an acceptable table without XDP rows reports success and has converged: it writes the text of the rows and logs it rendered and validated; it loads it if told to, sets exactly the prescribed addresses if told to, and only if told both logs it active and checks every live row; nothing else changes. |
| Convergence.SuccessMeansConverged | crates/edge-reconcile/src/lib.rs:85-250 | Whatever the world and the answers, every reconcile that is no dry run and reports success found an acceptable table without XDP rows and has converged in that sense. |
| Convergence.ProbeRecords | crates/edge-reconcile/src/lib.rs:186-220 | The answer to a health check decides the stored status, health text and error; nothing else of the row and no other row changes. |
| Convergence.StoredRowsGovernPackets | crates/edge-reconcile/src/lib.rs:85-250 | From rows to packets: after any reconcile that applied the rules and reports success, the live text read as an nft file sends each packet where the stored rows say, leaves the others alone, and masquerades exactly what leaves on the NetBird interface for a configured network. |
| Convergence.SecondReconcileReports | crates/edge-reconcile/src/lib.rs:154-175 | A second successful reconcile leaves text and addresses as they are, and reports no change exactly when no address is shared by an enabled and a disabled nft row. |
| Agent.StepIsTidy | crates/edge-reconcile/src/lib.rs:140-175 | Each step of a lone reconcile keeps the live table backed by stored rows and every added address named by one. |
| Agent.StepDetaches | crates/edge-agent/src/api.rs:125-147 | Each step of the reconcile inside a delete moves the switched-off row out of the live table and off the addresses. |
| Agent.NoOrphans | crates/edge-agent/src/api.rs:87-169 | In every serial run of create, enable, disable, reconcile, delete and release by mapping, whatever fails and wherever a call is cut off, nothing is orphaned. |
| Agent.ReleaseIsClean | crates/edge-agent/src/api.rs:435-475 | A release, whatever the cloud answers, keeps the edge address and the rule of its row and so orphans nothing. |
| Agent.LiveTrafficBelongsToRows | crates/edge-nft/src/render.rs:24-87 | Where nothing is orphaned, the ruleset read back from the live text rewrites a packet only to what some stored row prescribes, were it switched on. |
| Agent.EveryRunsTrafficBelongsToRows | crates/edge-agent/src/api.rs:87-169 | So it does after every serial run, whatever failed in it. |
| Moving.LiveRulesBacked | crates/edge-nft/src/render.rs:24-87 | Where nothing is orphaned, a stored row stands behind every rule of the live text. |
| Moving.MovingARowOrphansExactly | crates/edge-store/src/lib.rs:397-438 | Replacing a row orphans its address exactly when that was added, the new row names another one and no other nft row names it; and its rule exactly when that is in force, the new row renders to another one and no other row stands behind it. |
| Moving.AllocationOrphansExactly | crates/edge-agent/src/api.rs:391-397 | For a successful allocation: the address exactly when it was added, the new one differs and no other nft row names it; the rule exactly when it is in force, the address differs and no other row stands behind it. |
| Scenarios.AllocationOrphans | crates/edge-agent/src/api.rs:391-397 | A run of create, reconcile and allocation that orphans both. |
| AgentCalls.DeleteCallIsSteps | crates/edge-agent/src/api.rs:118-149 | A whole delete is a run of the delete machine. |
| AgentCalls.DeletedRowIsGone | crates/edge-agent/src/api.rs:118-149 | A delete that reports success has removed the row and leaves nothing orphaned. |
| AgentCalls.DeleteConverges | crates/edge-agent/src/api.rs:118-149 | Whatever the world and the answers, a delete that reports success returns the row switched off and takes it out, keeps all but the health of every other row, and leaves file, live table, log and addresses as the remaining rows prescribe. |
| AgentCalls.DeletedRowGetsNoPacket | crates/edge-agent/src/api.rs:118-149 | After it the live text sends each packet where the remaining rows say and leaves the others alone, whatever the deleted row claimed. |
| AgentCalls.DeleteCompletesExactly | crates/edge-agent/src/api.rs:118-149 | With every call answered, a delete completes exactly when the row is there and no other enabled row asks for XDP; otherwise it has switched the row off all the same. |
| Scenarios.XdpRowBlocksTheDelete | crates/edge-agent/src/api.rs:126-132 | A table on which it does not complete. |
| AgentCalls.DeleteMapping | crates/edge-agent/src/api.rs:118-149 | The delete, as calls in sequence over a changing host, is that call. |
| Oci.FailedAllocationRestores | crates/edge-oci/src/lib.rs:411-433 | A failed allocation changes no row and leaves live only what was live or what the agent just lost sight of; when the compensating deletes take effect, cloud and rows are as before. |
| Oci.AllocationGivesTheRow | crates/edge-agent/src/api.rs:391-397 | A successful allocation gives its row edge address and private id from the one reply and public address and id from the other, status pending, and no other change; no other row changes, and both resources are live. |
| Oci.ReleaseTakesTheRow | crates/edge-agent/src/api.rs:435-475 | A successful release leaves its row no public address and no reference, status disabled, all else kept; no other row changes, and what the row referred to was live and is gone. |
| Oci.ReleaseInOrder | crates/edge-agent/src/api.rs:444-462 | However it ends, a release deletes the private address only after the public one, and writes the row only after both. |
| Oci.ReleaseIdsTakesBoth | crates/edge-agent/src/api.rs:477-498 | A successful release by ids named at least one live resource, and leaves neither. |
| Oci.ReleaseIdsInOrder | crates/edge-agent/src/api.rs:477-498 | However it ends, it touches no row and deletes the private address only after the public one. |
| Oci.AllocateStaysAccounted | crates/edge-agent/src/api.rs:354-415 | Every allocation, whichever call fails, leaves each live resource of the agent referenced by one row, unless it was stranded or never acknowledged. |
| Oci.ReleaseStaysAccounted | crates/edge-agent/src/api.rs:435-475 | So does every release by mapping. |
| Oci.ReleaseIdsStaysAccounted | crates/edge-agent/src/api.rs:477-498 | So does every release by resource ids. |
| Oci.NothingLeaks | crates/edge-agent/src/api.rs:354-499 | After any serial run, new configurations included, every live resource the agent made is referenced by exactly one row, unless its compensating delete failed or its creation was never acknowledged. |
| Oci.SagaRunStaysSound | crates/edge-agent/src/api.rs:354-499 | Every serial run, new configurations included, keeps the rows passing the check against each other. |
| OciCleanup.InterruptedReleaseIsStuck | crates/edge-agent/src/api.rs:435-475 | A release that fails after changing anything leaves a row whose first reference is to a resource that is gone. |
| OciCleanup.ReleaseCompletesExactly | crates/edge-agent/src/api.rs:435-475 | With every call answered a release completes exactly when the row has a reference, its public one is a live public address, its private one a live private address, and the row is valid without its public address under the present configuration. |
| OciCleanup.AcceptedRowStaysValid | crates/edge-agent/src/api.rs:455-459 | A row that the present configuration accepts is valid without its public address. |
| OciCleanup.FailedReleaseCompletesExactly | crates/edge-agent/src/api.rs:435-475 | After a failed release another one completes exactly when the first changed nothing and that condition holds. |
| OciCleanup.LaterReleaseCompletesExactly | crates/edge-agent/src/api.rs:435-475 | The same condition, at the time of the release, decides after any further operations, new configurations among them. |
| OciCleanup.InterruptedReleaseNeverCompletes | crates/edge-agent/src/api.rs:444-462 | After a release that failed and changed something, whatever is done next and however often it is tried again, a release of that row errs and changes nothing. |
| OciRuns.CutShortReleaseSticks | crates/edge-agent/src/api.rs:444-462 | A run: an allocated row, a release whose second delete is refused, and no later completion. |
| OciCleanup.RemovalLeaksExactly | crates/edge-agent/src/api.rs:118-149 | The agent's delete, which makes no cloud call, leaks nothing exactly when the row refers to no live resource still in sight. |
| OciCleanup.CleanedRemovalLeaksExactly | crates/edge-cli/src/main.rs:318-322 | Removing a row after the command line's cleanup succeeded leaks exactly when an error of a delete without effect was misread as absence. |
| OciCleanup.BothDeletesAreTried | crates/edge-cli/src/main.rs:564-589 | Whatever becomes of the public delete, the private one is tried; the cleanup succeeds exactly when each delete did or its error reads as absence. |
| OciRuns.AllocatingRuns | crates/edge-agent/src/api.rs:354-415 | From a fresh store and cloud, create and allocate reach an allocated row. |
| OciRuns.RemovedRowLeaks | crates/edge-agent/src/api.rs:118-149 | Removing that row leaves both addresses live without a row. |
| OciRuns.MisreadCleanupLeaks | crates/edge-cli/src/main.rs:591-594 | A cleanup of it whose errors read like absence reports success and leaves both live. |
| OciCleanup.CleanupCanBeRetried | crates/edge-cli/src/main.rs:564-594 | Unlike a release, the cleanup succeeds after any interruption once the cloud works, and then neither resource is left. |
| CloudAgents.CloudAgent.AllocateForwardingIp | crates/edge-oci/src/lib.rs:411-433 | The creates with compensation, over a changing cloud, do what the specification says. |
| CloudAgents.CloudAgent.OciAllocate | crates/edge-agent/src/api.rs:354-415 | The allocation over the SQL store does what the specification says, and on success gives the row its addresses as above. |
| CloudAgents.CloudAgent.OciRelease | crates/edge-agent/src/api.rs:435-475 | So does the release by mapping, which on success takes them as above. |
| CloudAgents.CloudAgent.OciReleaseIds | crates/edge-agent/src/api.rs:477-498 | So does the release by ids. |
| CloudAgents.CloudAgent.CleanUpRow | crates/edge-cli/src/main.rs:564-589 | So does the cleanup, which tries both deletes and gathers the failures. |

## Left out

- Web UI, gateway, HTTP routing, authentication, JSON and TOML decoding, command-line arguments: presentation and input.
- Starting `nft`, `ip`, `oci` and `ping`: each is an answer of the environment; an nft file is assumed to load as a whole.
- SQLite itself: each statement is one atomic step, and a statement that errs has had no effect, except for health reports, whose later reads and events may fail after the write.
- Schema migration: every table starts with all indexes and triggers.
- Clock values: times are opaque integers with their order; the order of RFC 3339 texts is not modelled.
- Event rows: their contents are left out; that recording one may fail is part of the calls that do so.
- Error messages: reasons are enumerated, and a failed probe has one fixed text. Names of a disabled XDP plan are kept as a list.
- Generation rows: status and text only, ids being positions; times and errors of a generation are left out.
- ReadBack.CompiledIsReadable: stated for interface names without quotes and line breaks, because validation lets such names through and the renderer does not escape them.
- Renderer.AcceptedTextGoverns: under the same condition on the names, as are `Convergence.StoredRowsGovernPackets` and `AgentCalls.DeletedRowGetsNoPacket`.
- One output file: reconciles that write to different files are not modelled.
- Agent.NoOrphans: covers serial runs without allocations, because an allocation moves a row to another edge address (`Moving.AllocationOrphansExactly`); releases by resource ids touch no row, and an agent runs under the one configuration it has loaded.
- Convergence.FaultFreeReconcile: assumes no enabled XDP row, because the code refuses to apply an XDP plan.
- Oci.NothingLeaks: leaves out the agent's delete, because it releases nothing; `OciCleanup.RemovalLeaksExactly` says when that leaks.
- In-memory generations, events and id counters, and the order of its listing.
- Choosing compartment and interface for an allocation and the confirmation words: a refusal before any call.
- XDP interface check, NetBird status and route checks: not modelled.
