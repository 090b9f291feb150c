# Verified models of the gateway's core

The gateway lets clients use AI models under access keys. These Dafny modules model the parts of it where state, arithmetic, concurrency and failures meet, and prove what they promise. Each part has a model on values (functions and steps), classes or methods in the program's own form proved against it, lemmas over whole runs, and predicates that say in plain fields what every step finds and leaves.

- **Cost limits** (`quota_*.dfy`): spending rules with numbered windows, tickets, saturating counters, reconfiguration beside running requests, checkpoints, and whole lives of the program from one start to the next.
- **Editing limits** (`rule_*.dfy`): rules move through temporary periods so that the unique index on periods is never met, and what an edit leaves is always accepted by the runtime.
- **Soft affinity** (`affinity_*.dfy`): a bounded least-recently-used cache with lifetimes, versions and configuration revisions.
- **Credential stages** (`stage_*.dfy`): an eight-state protocol of guarded updates, and the transaction that turns stages into credentials.
- **Reset credits** (`reset_*.dfy`): idempotent operations of which a credential may have one open.
- **Files that must survive** (`file_replacement.dfy`, `binding_*.dfy`): replacing the cached catalog and restoring resource bindings when any step may fail.
- **Catalog synchronization** (`catalog_*.dfy`): one synchronization at a time, with validators that belong to what is served.
- **Automatic models** (`automodel_*.dfy`): byte budgets for what is sent to choose a model.
- **Model directory** (`directory_*.dfy`, `text_order.dfy`): its order, its editing, and how much of it is sent.
- **Login failures** (`auth_limiter.dfy`) and **prices** (`price_*.dfy`).

Where the code and its documentation differ, the model follows the code. Two expected properties are false of the code as it stands. A credential can have two unresolved reset operations when two writes share a millisecond: `ResetRuns.EqualStampsOpenTwo` shows it, and `ResetModel.NewKeyKeepsOneOpen` and `ResetRuns.RunKeepsOneOpen` say exactly when the rule is kept, by one request and by a run. And a startup in which nothing fails can lose a resource binding that is still good, when an older record of it expires between the merge of the two files and its turn to be claimed: `BindingRestore.LateTurnLoses` shows it and `BindingRestore.KeptExactly` says exactly when a binding is kept. Two branches of the automatic-model code turn out never to be taken: the state is never too large after compaction, and while automatic models are enabled no preset can target another one.

## Model

| member | source | states |
|---|---|---|
| QuotaRuns.AccountingLaw | internal/accessquota/runtime.go:240-332 | In every run of admissions, completions, acknowledgements and reconfigurations that never brings a retired rule revision back, a rule's `used` is its baseline plus the int64-capped sum of exactly the completions whose tickets name its revision and window generation; one negative estimate caps it |
| QuotaRuns.SaturatedClosedForm | internal/accessquota/runtime.go:304-320 | Adding costs one by one with saturation is the capped sum of all of them, whatever their order |
| QuotaRuns.NoAdmissionIntoSpentWindow | internal/accessquota/runtime.go:240-281 | Once a window is spent and its limit stays, it stays spent and no later admission in the run issues a ticket that names it, whatever the clock reads |
| QuotaRuns.RunConsistent | internal/accessquota/runtime.go:175-332 | Over any permitted run rule IDs stay distinct per key, counters stay within int64, every issued ticket names a generation already reached, and remembered generations only grow |
| QuotaDecisions.RefusalIsExact | internal/accessquota/runtime.go:597-620 | An allowed decision stays allowed while nothing is charged, an unrecoverable refusal holds at every later time, and a recoverable one names the first moment from which a request is let through |
| QuotaDecisions.LatestEndIsMaximum | internal/accessquota/runtime.go:606-617 | The recovery time is the largest end of an exhausted periodic window, attained by one of them |
| QuotaDecisions.BlockingIsExhausted | internal/accessquota/runtime.go:597-620 | The blocking views are exactly those of the exhausted rules, and there are none exactly when the request is allowed |
| QuotaRuntime.FaultMeansInexact | internal/accessquota/runtime.go:283-332 | A completion reports a fault exactly when some counter it charged is not the exact sum |
| QuotaRuntime.RuntimeRule.ChargeCost | internal/accessquota/runtime.go:302-322 | Saturating charge in place; the version advances only if the counter changed |
| QuotaRuntime.RuntimeRule.OpenIfInactive | internal/accessquota/runtime.go:252-267 | A missing or ended periodic window is replaced by one of exactly one period with the next generation and nothing used |
| QuotaRuntime.RuntimeRule.AdvanceVersion | internal/accessquota/runtime.go:656-661 | The version grows by one, stops at the largest uint64, and the rule becomes dirty |
| QuotaRuntime.RuntimeRule.ApplyRestored | internal/accessquota/runtime.go:562-586 | A restored state is taken over exactly when it fits the rule's kind and its window is exactly the period long |
| QuotaRuntime.RuntimeRule.CloneState | internal/accessquota/runtime.go:588-595 | All state of another rule object is copied, the definition is kept |
| QuotaRuntime.AccessKeyEntry.Decision | internal/accessquota/runtime.go:597-620 | Allowed exactly when every rule has used less than its limit or is periodic without a window that is still running; each rule in the way is reported with its limit, use, remainder and window, and the recovery time is the latest of their ends, unless a total rule is in the way |
| QuotaRuntime.AccessKeyEntry.Judge | internal/accessquota/runtime.go:597-620 | The loop over the rules computes the decision the exactness lemmas are about |
| QuotaReference.DecideMeans | internal/accessquota/runtime.go:597-620 | The decision in the fields of the rules: what lets a request through, what each blocking view reports, and when the request may come back |
| QuotaRuntime.AccessKeyEntry.Admit | internal/accessquota/runtime.go:240-281 | A refused admission changes nothing; an allowed one gives every periodic rule whose window is missing or over a new one from now for one period, with the next generation and nothing used, and its ticket names every rule with the revision and generation it then has |
| QuotaRuntime.AccessKeyEntry.Complete | internal/accessquota/runtime.go:283-332 | Every rule is charged for exactly the ticket entries that name its ID, revision and generation, once for each, capped at the largest int64; all else of it stays, and the fault says whether a charge was negative or went beyond |
| QuotaRuntime.AccessKeyEntry.Ack | internal/accessquota/runtime.go:385-396 | Only the exact revision and version clear the dirty flag |
| QuotaRuntime.Runtime.Check | internal/accessquota/runtime.go:231-238 | An unlimited key is always allowed; a limited one exactly when each of its rules has used less than its limit or has no running window, and what is reported follows from the rules' fields |
| QuotaRuntime.Runtime.Admit | internal/accessquota/runtime.go:240-281 | Only the key's rules change; when allowed the ticket has one entry for each rule of the key, with its ID, revision and generation after the call |
| QuotaReference.AdmitMeans | internal/accessquota/runtime.go:240-281 | The admission step in the fields of the rules: which windows open, and what the ticket names |
| QuotaLaws.AdmissionNamesAll | internal/accessquota/runtime.go:268-278 | An admission that is let through issues a ticket that names each rule of its key once, with the revision and generation it has after the admission |
| QuotaLaws.AdmittedIsCharged | internal/accessquota/runtime.go:240-332 | Over every run, completing the ticket of an allowed admission raises `used` of every rule of that key that still has its revision and window by the cost, capped at the largest int64 |
| QuotaRuntime.Runtime.Complete | internal/accessquota/runtime.go:283-332 | Only the ticket's key changes; its rules are charged by the entries that name them, and the fault says whether a charge was negative or went beyond the largest int64 |
| QuotaReference.ChargeMeans | internal/accessquota/runtime.go:302-322 | Charging a rule by a ticket in its fields: once for every entry that names its ID, revision and generation, capped, with a new version exactly when the counter changed |
| QuotaRuntime.CompleteMeans | internal/accessquota/runtime.go:283-332 | The completion step in the fields of all rules of the key |
| QuotaRuntime.CompletionFaultMeans | internal/accessquota/runtime.go:304-331 | The fault in the fields: a negative cost for a named rule, or a counter that would go beyond the largest int64 |
| QuotaRuntime.Runtime.Ack | internal/accessquota/runtime.go:385-396 | Only a rule of the key with this ID, revision and version becomes clean; everything else of the table stays |
| QuotaRuntime.Runtime.Restore | internal/accessquota/runtime.go:150-173 | A list is accepted exactly when every row is readable, none repeats a rule, nothing is pending and the table is empty; its rows are then kept by rule, and otherwise nothing changes |
| QuotaRuntime.Runtime.ReadStates | internal/accessquota/runtime.go:150-173 | The rows are read by rule, or refused when one is not readable or repeats a rule |
| QuotaRuntime.Runtime.RestoredTable | internal/accessquota/runtime.go:500-535 | The table built after a restore exists exactly when every rule finds an applicable state; what no rule claimed is left over |
| QuotaRuntime.Runtime.NextTable | internal/accessquota/runtime.go:200-226 | The next table is built exactly when no surviving revision changed kind or period, and then carries the state of every surviving revision |
| QuotaRuntime.Runtime.Reconcile | internal/accessquota/runtime.go:175-229 | Accepted exactly when the definitions are sound and, after a restore, every rule finds its row and every row its rule, or else no surviving revision changed kind or period; then each key has its rules in order, each with the use and window of its revision or of its row, and all others unused; else the table stays; without a pending restore the table moves by the reconfiguration step of the run lemmas |
| QuotaReference.ValidDefinitionsMeans | internal/accessquota/runtime.go:430-485 | The definitions that are accepted, in fields: positive keys, IDs, revisions and limits, one total rule at most, up to ten different periods between a minute and a year, and no rule of two keys |
| QuotaLaws.ReconcileMeans | internal/accessquota/runtime.go:175-229 | A reconfiguration in the fields of the rules: each key has its definitions in order, a rule keeps its use and window exactly when it keeps its revision, and every other rule starts unused |
| QuotaLaws.RestoreMeans | internal/accessquota/runtime.go:500-586 | A restore in the fields: each key has its definitions in order, each rule with the use, window, generation and version of its row |
| QuotaRuntime.Runtime.DirtySnapshots | internal/accessquota/runtime.go:352-383 | The snapshots are those of the first dirty rules, by ascending key and in the order of each key's rules, as many as the limit allows, and each holds use, window, generation, revision and version of its rule |
| QuotaRuntime.Runtime.TakeSnapshots | internal/accessquota/runtime.go:352-383 | The loop over the sorted keys yields the list of all dirty rules, cut at the limit |
| QuotaSnapshots.SnapshotsAreComplete | internal/accessquota/runtime.go:352-383 | The cut list is the snapshots of the first dirty rules in the order of keys and rules |
| QuotaRuntime.AccessKeyEntry.TakeDirty | internal/accessquota/runtime.go:369-378 | The snapshots of one key's dirty rules in order, as many as there is room for |
| QuotaSnapshots.SnapshotsAreDirty | internal/accessquota/runtime.go:364-382 | Exactly the dirty rules of the keys are in the uncut list |
| QuotaSnapshots.SortKeys | internal/accessquota/runtime.go:357-361 | Every key once, in ascending order |
| QuotaRuntime.Runtime.ReconcileIsStep | internal/accessquota/runtime.go:175-229 | Without a pending restore, what is installed is the reconfiguration step of the run lemmas |
| QuotaValidate.AcceptedMeans | internal/accessquota/runtime.go:450-485 | Checking each rule against those before it is checking all pairs: IDs, owners, kinds and periods |
| QuotaValidate.ValidateRules | internal/accessquota/runtime.go:450-485 | The loop accepts exactly the rule lists that are valid and share no rule ID with other keys, and returns all IDs taken |
| QuotaValidate.NormalizeDefinitions | internal/accessquota/runtime.go:430-448 | Definitions are accepted exactly when every key and rule is valid and no rule ID belongs to two keys; the result is sorted and free of empty keys |
| QuotaCheckpoint.ReachableHealthy | internal/accessquota/runtime.go:240-281 | Every state reached with issued tickets at non-negative times is well formed: windows exactly one period long, unopened windows empty |
| QuotaCheckpoint.RestoreMapContents | internal/accessquota/runtime.go:150-173 | The list to restore is accepted exactly when all states are valid and no rule repeats, and is then looked up by rule |
| QuotaCheckpoint.RestoreRoundTrip | internal/accessquota/runtime.go:500-586 | Restoring the captures of a well-formed table gives back that table, marked clean |
| QuotaCheckpoint.RestartReproduces | internal/accessquota/runtime.go:150-229 | After any run, capturing all rules, restoring them and reconfiguring with the same rules reproduces the runtime, marked clean |
| QuotaCheckpoint.RestoredWellFormed | internal/accessquota/runtime.go:547-586 | A restored table is well formed, so every run lemma applies to what follows a restart |
| QuotaCheckpoint.CheckpointLossless | internal/requestlog/access_quota_checkpoint.go:56-122 | In every interleaving of requests, captures, writes, acknowledgements, edits and reloads, a rule that is not dirty equals its durable row, if that row has its revision |
| QuotaCheckpoint.CleanRestart | internal/accessquota/runtime.go:352-396 | In a safe, well-formed system a restart while nothing is dirty gives back exactly the running table |
| QuotaRestart.StartIsSafe | internal/accessquota/runtime.go:150-198 | Every system the program can start in, restored from the rows of the database, is safe, well formed, in normal form and valid |
| QuotaRestart.SoundMoves | internal/requestlog/access_quota_checkpoint.go:56-122 | Every allowed interleaving of requests, captures, writes, acknowledgements, edits and reloads keeps it so |
| QuotaRestart.RunIsLossless | internal/requestlog/access_quota_checkpoint.go:56-122 | From any start, at any point of any such interleaving, a rule that is not dirty equals its durable row, if that row has its revision |
| QuotaRestart.RestartLosesNothing | internal/accessquota/runtime.go:150-229 | From any start, after any such interleaving that ends with everything saved, the next start gives back exactly the running table, and is again a start of which all this holds |
| QuotaRestart.NormalizedValid | internal/accessquota/runtime.go:430-448 | Normalised definitions are still valid, all keys together |
| QuotaConcurrency.NoDeadlock | internal/accessquota/runtime.go:405-428 | In every reachable state with an operation under way, some operation can take its next step |
| QuotaConcurrency.WaitersHoldNoEntry | internal/accessquota/runtime.go:405-428 | No thread waits for the table lock while it holds an entry's mutex |
| QuotaConcurrency.StepsAreBounded | internal/accessquota/runtime.go:175-229 | Every step of an operation brings it strictly nearer to its end and moves no other thread, so all operations finish |
| QuotaConcurrency.StepRefines | internal/accessquota/runtime.go:175-229 | Every step of the lock protocol is silent or is one whole sequential operation |
| QuotaConcurrency.InterleavingsAreSequential | internal/accessquota/runtime.go:283-332 | Every interleaving of requests and reconfigurations has the effect of performing them one after the other: no charge to a surviving rule is lost or applied twice |
| QuotaAccounting.SchedulesAreRuns | internal/accessquota/runtime.go:175-332 | Every schedule of the lock protocol has the effect of the run of its operations in the order in which they take effect |
| QuotaAccounting.ConcurrentAccounting | internal/accessquota/runtime.go:240-332 | In every schedule from rest whose completions present issued tickets, what a surviving rule has used is its baseline plus the capped sum of exactly the completions that name its revision and window |
| QuotaConcurrency.PerformIsStep | internal/accessquota/runtime.go:240-332 | The operations of the protocol are the admissions, completions and acknowledgements of the run lemmas |
| QuotaConcurrency.QuietStart | internal/accessquota/runtime.go:130-132 | A runtime nobody uses satisfies the protocol's invariant and stands for its table |
| QuotaRuntime.AccessKeyEntry.OpenWindows | internal/accessquota/runtime.go:252-267 | Every inactive window of the entry is opened, in one pass, and nothing else changes |
| QuotaRuntime.AccessKeyEntry.CompleteOne | internal/accessquota/runtime.go:295-323 | Exactly the rules that match one ticket entry are charged; it says whether any was and whether any overflowed |
| QuotaRuntime.CarryRule | internal/accessquota/runtime.go:208-222 | A rule takes over the state of the same ID and revision, unless kind or period differ |
| QuotaRuntime.CarryEntry | internal/accessquota/runtime.go:205-224 | A new entry, with objects of its own, carries every surviving rule; it fails exactly on a conflict |
| QuotaRuntime.RestoreEntry | internal/accessquota/runtime.go:510-523 | A new entry is restored exactly when every rule has an applicable state of this key and revision |
| RuleTable.Table.SetPeriod | internal/control/access_key_cost_limits.go:163-175 | The guarded update affects the row exactly when it belongs to the key and no other row has that period |
| RuleTable.Table.Update | internal/control/access_key_cost_limits.go:198-202 | The update succeeds exactly when no other row of the key has that kind and period; otherwise nothing changes |
| RuleTable.Table.Insert | internal/control/access_key_cost_limits.go:97-124 | A row and its zero checkpoint are created together, or neither when the unique index objects |
| RuleTable.Table.ResetState | internal/control/access_key_cost_limits.go:281-304 | The checkpoint is zeroed under the next revision exactly when it still has the current one |
| RuleTable.Table.Delete | internal/control/access_key_cost_limits.go:154-156 | The row goes with its checkpoint |
| RuleEditing.CheckReferences | internal/control/access_key_cost_limits.go:139-149 | Accepts exactly when every definition with an ID names a rule of this key and kind |
| RuleEditing.ApplyNew | internal/control/access_key_cost_limits.go:179-186 | A new rule always fits and gets a row and a zero checkpoint |
| RuleEditing.ApplyExisting | internal/control/access_key_cost_limits.go:187-212 | An existing rule always fits and gets its limit; with the same period its checkpoint stays, with another one it gets that period, the next revision, and a checkpoint without use or window |
| RuleRequest.Next | internal/control/access_key_cost_limits.go:40-76 | One rule is accepted exactly when it parses and fits the rules before it |
| RuleRequest.ReadRules | internal/control/access_key_cost_limits.go:28-79 | A request is read exactly when its limits parse to positive amounts and its rules are valid together |
| RuleRequest.SortRules | internal/control/access_key_cost_limits.go:84-95 | Valid rules are put in order, total first and then by period, which is a reordering of all of them that stays valid |
| RuleRequest.NormalizeRules | internal/control/access_key_cost_limits.go:28-95 | Accepts exactly the requests whose limits are plain decimals of at least a billionth of a dollar and whose rules have IDs only where allowed, no ID and no place twice and at most ten periods; returns them as given, total first and then by period |
| RuleRequest.AcceptableMeans | internal/control/access_key_cost_limits.go:28-82 | The requests that are accepted, in the fields of the inputs |
| RulePlanner.NextFree | internal/control/access_key_cost_limits.go:343-348 | The highest period from a start downwards that is not reserved |
| RulePlanner.AssignTemporaries | internal/control/access_key_cost_limits.go:339-361 | Every changed rule gets its own temporary period in range, different from all reserved ones; it can only fail when the range is used up |
| RulePlanner.CollectChanges | internal/control/access_key_cost_limits.go:318-338 | The changed rules are collected, all current and desired periods reserved, and it fails exactly when a changed rule has no next revision |
| RulePlanner.Plan | internal/control/access_key_cost_limits.go:306-362 | With as many rules as a key may have, a plan exists unless a changed rule has no next revision |
| RuleEditing.DeleteOthers | internal/control/access_key_cost_limits.go:150-157 | Exactly the rows of the key that are not desired are deleted, one by one, each delete leaving the index intact |
| RuleEditing.ApplyMoves | internal/control/access_key_cost_limits.go:162-176 | Every single temporary move finds its row and meets no other row of its period |
| RuleEditing.TargetFits | internal/control/access_key_cost_limits.go:178-213 | At every point of the edit the next update or insert meets no other row of its key, kind and period |
| RuleEditing.ApplyDesired | internal/control/access_key_cost_limits.go:178-213 | Every definition gets its row and its checkpoint: reset when new or changed, otherwise kept |
| RuleEditing.Reconcile | internal/control/access_key_cost_limits.go:126-215 | For any permutation of periods the edit fails exactly for a definition that names no rule of this key and kind, or one that changes the period of a rule with the last revision, never because of the unique index; a rule with the same period keeps its checkpoint and revision and only its limit changes, one with another period gets the next revision and a checkpoint without use or window, a new one revision one and such a checkpoint; rules not desired go, and other keys are untouched |
| RuleEditing.RefusedMeans | internal/control/access_key_cost_limits.go:139-149 | An edit is refused exactly for a definition that names no rule of this key and kind, or one that changes the period of a rule with the last revision |
| RuleEditing.EditedRowsAreValid | internal/control/access_key_cost_limits.go:126-215 | The rows an edit leaves to its key are valid rules together |
| RuleEditing.EditedRevision | internal/control/access_key_cost_limits.go:187-202 | An edit never lowers a revision and never changes kind or period under an unchanged one |
| RuleReload.LoadedIsValid | internal/accessquota/runtime.go:430-485 | The definitions of a sound table are valid for all keys together |
| RuleReload.EditKeepsSound | internal/control/access_key_cost_limits.go:126-215 | An edit of a sound table leaves a sound table: valid rows, unique slots, no key over its limit of rules |
| RuleReload.RowsAreFew | internal/control/access_key_cost_limits.go:126-138 | A key of a sound table has at most eleven rules, which is what an edit needs |
| RuleReload.EditIsAccepted | internal/accessquota/runtime.go:175-229 | After an edit of a sound table the definitions of all its keys are valid and conflict with no live rule, and the next edit may start from them, before they are installed and after |
| RuleReload.EditAndReload | internal/accessquota/runtime.go:175-229 | When the edit goes through, so does the reload, and both are ready for the next edit |
| RuleEditing.EditNeverConflicts | internal/accessquota/runtime.go:208-222 | After any edit the runtime's reconfiguration meets no conflict, because every period change raised the revision |
| AffinityRuns.RunShaped | internal/affinity/cache.go:73-196 | Over any run there is one slot per key, never more slots than the capacity, and every slot holds a valid target |
| AffinityRuns.VersionsNeverReused | internal/affinity/cache.go:144-148 | Two accepted records anywhere in a run, also on both sides of a reconfiguration, get different, increasing versions |
| AffinityRuns.SlotsRemember | internal/affinity/cache.go:93-190 | Every slot holds target, version and deadline of the last accepted record of its key under the current configuration |
| AffinityRuns.HitIsLatest | internal/affinity/cache.go:93-109 | A hit returns the latest target recorded under the current revision, within its lifetime |
| AffinityHits.RecentIsFound | internal/affinity/cache.go:93-109 | The converse: if the key's last accepted record under the current configuration is in its lifetime, no lookup or record of the key came after it, and fewer other keys than fit were touched since the key's last touch, then a lookup finds that record's target |
| AffinityHits.LookupRemovesOverdue | internal/affinity/cache.go:99-102 | A lookup removes no other key, and its own exactly when its lifetime is over |
| AffinityHits.HeldSinceWrite | internal/affinity/cache.go:113-190 | From its last record on a key is held, or as many other keys as fit were touched since its last touch |
| AffinityRuns.ReplacesOnlyWhatWasSeen | internal/affinity/cache.go:113-151 | A live mapping is replaced only if since the lookup whose observation is presented nobody recorded the key and no configuration took effect |
| AffinityRuns.RunOrdered | internal/affinity/cache.go:93-151 | Over any run the list is in the order of the keys' last uses |
| AffinityRuns.EvictionNeedsDistinctTouches | internal/affinity/cache.go:175-190 | A key is evicted only after at least `capacity` other keys were touched since its own last touch |
| AffinityCache.SameSize | internal/affinity/cache.go:176-182 | A map and a list that are in step have the same size, so the eviction loop's bound is the list's |
| AffinityCache.SoftCache.Configure | internal/affinity/cache.go:73-91 | An invalid or older configuration, or another one under the same revision, is refused and changes nothing; a newer one empties map and list and keeps the version counter |
| AffinityCache.SoftCache.Lookup | internal/affinity/cache.go:93-109 | Map and list stay in step; a slot in its lifetime is reported with target, version and revision and comes to the front, an overdue one goes, and all others stay in their order |
| AffinityCache.SoftCache.RecordSuccess | internal/affinity/cache.go:113-151 | Accepted exactly for a valid key and target, under the observed revision, if a slot in its lifetime is the one observed; then the key is in front with the next version and a whole lifetime, before the others in order, of which only the last go when a new key needs room; else nothing changes |
| AffinityCache.SoftCache.RecordLocked | internal/affinity/cache.go:121-151 | Map and list stay in step; the value changes as the record step says and the answer is whether it was accepted |
| AffinityReference.LookupIs | internal/affinity/cache.go:93-109 | The lookup step on the slots: what is reported, what comes to the front, what goes and what stays |
| AffinityReference.AcceptMeans | internal/affinity/cache.go:113-140 | When a record is accepted, in the fields of the cache, the observation and the target |
| AffinityReference.RecordIs | internal/affinity/cache.go:113-190 | The record step on the slots: what is in front, and which of the others are left |
| AffinityCache.SoftCache.Insert | internal/affinity/cache.go:175-190 | Evicts from the back until one more fits, then puts the new element in front, in map and list |
| AffinityCache.SoftCache.Current | internal/affinity/cache.go:162-173 | The live element of the key; an expired one is dropped from map and list |
| AffinityCache.SoftCache.Remove | internal/affinity/cache.go:192-196 | One element leaves map and list together |
| AffinityCache.SoftCache.MakeRoom | internal/affinity/cache.go:176-182 | The least recent elements leave map and list until one more fits |
| AffinityCache.SoftCache.Refresh | internal/affinity/cache.go:144-150 | The element gets target, deadline and the next version in place and moves to the front |
| StageRuns.RunInvariant | internal/control/credential_stages.go:775-803 | In every interleaving of callbacks, polls, refreshes, cancellations, expiry, cleanup and restarts, rows are well formed, OAuth states are unique, and a held stage is in the period its holder opened or is over |
| StageRuns.TerminalIsAbsorbing | internal/control/credential_stages.go:1621-1688 | Once a stage is terminal or pruned, no event of any run changes its row again or brings it back |
| StageRuns.SecretsOnlyWhileUsable | internal/control/credential_stages.go:493-532 | In every reachable state a row has a payload exactly while it is not terminal, an OAuth state exactly while a browser authorization is pending, and a consuming group exactly when consumed |
| StageRuns.CleanupEndsOverdue | internal/control/credential_stages.go:1652-1689 | Cleanup ends every overdue stage, an exchange half a minute after its claim |
| StageRuns.ResultsAreTimely | internal/control/credential_stages.go:1147-1184 | A result that is written is written by the thread that opened the current exchanging period, which nothing ended in between: a late result revives nothing |
| StageRuns.OneResultPerPeriod | internal/control/credential_stages.go:1321-1363 | Two results written to one stage belong to different periods, and the later one was claimed after the earlier was written |
| StageLaws.RowsOverRuns | internal/control/credential_stages.go:306-1688 | Over every run, for every event and every row: from status, deadline and what is presented, whether the event changes the row, and every field of the row afterwards; rows appear only as new stages start, and go only by cleanup |
| StageLaws.ResultOfClaim | internal/control/credential_stages.go:1299-1363 | Over every run, what a result leaves, from the row its claim found and whatever came between: status, payload, identity, deadline and code for each outcome, all else as it was; it is written exactly if the stage is there and still exchanging |
| StageLaws.ClaimRow | internal/control/credential_stages.go:1033-1050 | A claim takes a pending or ready row in its lifetime, keeps what it holds, gives the caller half a minute and remembers the deadline it replaced |
| StageReference.CleanMeans | internal/control/credential_stages.go:1652-1689 | Cleanup leaves every row with a later deadline as it is, ends overdue exchanges, expires overdue pending and ready rows, and removes exactly the finished rows untouched for a day |
| StageReference.RestartMeans | internal/control/bootstrap.go:35-48 | A restart ends every exchange and touches nothing else |
| StageRuns.RetryUndoesClaim | internal/control/credential_stages.go:336-441 | A refresh that may be retried leaves the stage as it found it, deadline and payload included, but for the time of change and an old error code |
| StageRuns.ConsumedAtMostOnce | internal/control/credential_stages.go:1590-1602 | In every run a stage is consumed at most once |
| StageRuns.StateHonouredOnce | internal/control/credential_stages.go:775-803 | A returned OAuth state is honoured once in a run, as a success or as a rejection |
| StageStore.Store.Load | internal/control/credential_stages.go:1398-1440 | The batch is read exactly when every stage is there and can be consumed now; a missing stage is reported first, else the first stage that cannot, as of another channel, consumed, not ready, overdue or without identity |
| StageStore.RefusalMeans | internal/control/credential_stages.go:1418-1436 | Why a stage cannot be consumed, from its channel, status, deadline and identity, in this order |
| StageStore.Store.Classify | internal/control/credential_stages.go:1442-1484 | A stage is skipped exactly when the group has its identity healthy or an earlier stage has it, and repairs exactly a broken credential of its identity otherwise |
| StageStore.Store.Deliver | internal/control/credential_stages.go:1546-1588 | Writes exactly one credential, the broken one with the next secret version or a new one with the first; a fault changes nothing and is another transaction's doing or a row in the way of the unique indexes |
| StageStore.Store.Process | internal/control/credential_stages.go:1510-1603 | One stage: its credential unless it is skipped, then the stage itself; a failure is blamed on its payload, on another transaction, or on an equal secret |
| StageStore.Store.Consume | internal/control/credential_stages.go:1489-1605 | All or nothing: added and skipped stages add up to the batch, all its stages are consumed by the group, broken credentials of its identities are repaired with a secret version one higher, missing ones are created, healthy and foreign ones are untouched; it fails only for a stage that cannot be loaded, a payload of another account, another transaction's interference, or two identities with one secret |
| StageStore.Store.CleanUp | internal/control/credential_stages.go:1652-1689 | The three statements together leave every row with a later deadline as it is, end overdue exchanges, expire overdue pending and ready rows, and remove exactly the finished rows untouched for a day |
| StageConsumption.ExactlyOne | internal/control/credential_stages.go:1486-1605 | After a batch exactly one credential of the group carries each of its identities |
| StageConsumption.SettleRepaired | internal/control/credential_stages.go:1548-1574 | Repairing one credential settles one more stage of the batch |
| StageConsumption.SettleAdded | internal/control/credential_stages.go:1575-1588 | Creating one credential settles one more stage of the batch |
| ResetModel.SecondOpensExactly | internal/control/credential_reset_credits.go:404-422 | While one operation is open, a new key is admitted exactly when a success comes after the open one in the query's order |
| ResetModel.NewKeyKeepsOneOpen | internal/control/credential_reset_credits.go:233-295 | Beginning under a new key keeps at most one open operation exactly when no open operation is hidden behind a success |
| ResetRuns.StepKeepsOneOpen | internal/control/credential_reset_credits.go:233-295 | Of all events, only a new key that overtakes a hidden open operation leaves two operations open |
| ResetRuns.RunKeepsOneOpen | internal/control/credential_reset_credits.go:233-295 | Throughout a run a credential has at most one open operation exactly when no new key ever begins while an open one is hidden behind a success |
| ResetRuns.EqualStampsOpenTwo | internal/control/credential_reset_credits.go:404-422 | With three canonical keys and a clock that does not go back, a success and a new key in the same millisecond lead a run to two open operations |
| ResetRuns.CloseCallsOpenTwo | internal/control/credential_reset_credits.go:404-422 | Such a run does so for every credential, every time and all keys of which the successful one comes later in the order |
| ResetModel.SomeLatest | internal/control/credential_reset_credits.go:404-422 | The query for the latest operation finds one whenever the credential has one that counts |
| ResetRuns.NeverTwoOpen | internal/control/credential_reset_credits.go:233-295 | With strictly later stamps no run gives a credential two unresolved operations |
| ResetRuns.ResolvedIsFinal | internal/control/credential_reset_credits.go:424-449 | Operations keep their identity, are never removed, and a resolved one is never written again |
| ResetRuns.RedeemIsKey | internal/control/credential_reset_credits.go:284-289 | Every request sent for a key carries that key as its redeem identifier |
| ResetRuns.ResolvedIsReplayed | internal/control/credential_reset_credits.go:297-328 | A resolved operation is never sent again: the same request gets the stored outcome |
| ResetRuns.ResendsAreSpaced | internal/control/credential_reset_credits.go:373-382 | A prepared operation is sent again no earlier than half a minute after it was last sent |
| ResetRuns.EventsOverRuns | internal/control/credential_reset_credits.go:233-449 | Over every run: exactly when a request is sent, by state, stamp and request, and every field of the row that is written |
| ResetRuns.UnopposedMeans | internal/control/credential_reset_credits.go:404-422 | The latest operation that counts is a success exactly when every unresolved one is followed by a success |
| ResetRuns.Ledger.MayBegin | internal/control/credential_reset_credits.go:404-422 | The search for the latest operation answers whether a new key may begin |
| ResetRuns.Ledger.BeginOperation | internal/control/credential_reset_credits.go:233-295 | A request is sent exactly under a new key when every unresolved operation of the credential is followed by a success, or under its own key when the outcome is unknown or half a minute has passed since it was prepared; the row written and every other answer follow from the stored row |
| ResetRuns.Ledger.FinishOperation | internal/control/credential_reset_credits.go:424-449 | Exactly a prepared operation takes the outcome, with its stamps; nothing else of it or of others changes |
| FileReplacement.Store | internal/catalog/cache.go:116-206 | For every pattern of failing operations: it succeeds exactly when none fails, and then leaves the new bytes and no other change; after one failure the previous bytes or their absence are in place, only a second one can strand it; a failure leaves the previous bytes or their absence, or keeps a backup with the previous bytes; other files are untouched; and in every intermediate state the previous bytes, the new bytes or a copy of the previous bytes exist |
| FileReplacement.BackUp | internal/catalog/cache.go:284-297 | The file, if there is one, is copied under a name not in use; nothing else changes, and it fails exactly when an operation does |
| FileReplacement.Commit | internal/catalog/cache.go:166-205 | The replacement with its rollbacks, before the deferred removals |
| FileReplacement.Restore | internal/catalog/cache.go:299-331 | A restore that reports success has put the backup's bytes back, or removed what was not there before; the backup survives every failure |
| FileReplacement.Swap | internal/catalog/cache.go:148-206 | The deferred removals destroy neither the bytes put back nor a backup that is still needed |
| BindingRestore.Merge | internal/app/runtime_checkpoint.go:177-204 | The merged list has each usable identity once, with its earliest usable deadline, and nothing else |
| BindingRestore.MergedDeadline | internal/app/runtime_checkpoint.go:177-204 | The deadline kept for an identity is the smallest usable one recorded |
| BindingRestore.AttemptsKeep | internal/app/runtime_checkpoint.go:77-157 | However often startup is tried and wherever each attempt stops, no tracked resource is lost and neither a resource nor a deadline is invented |
| BindingRestore.KeptExactly | internal/app/runtime_checkpoint.go:177-286 | In an attempt without failures, a resource that was usable at the merge is kept exactly if no record of it expires between the merge and its turn to be claimed |
| BindingRestore.LateTurnLoses | internal/app/runtime_checkpoint.go:193-256 | A resource good until 100 with an older record good until 2, merged at 1 and reached at 3, is lost |
| BindingStartup.Restore | internal/app/runtime_checkpoint.go:77-157 | In every durable state of a startup attempt, every resource that is claimed, refused, or recorded with a deadline after the attempt and with none that falls within it, is still claimed, refused or so recorded, whatever expired records lie beside it, and nothing else is claimed; an attempt without failures leaves no checkpoint and, unless the checkpoint was corrupt, no pending file, and settles exactly the bindings whose turn came in time |
| BindingStartup.LoadPending | internal/app/runtime_checkpoint.go:88-101 | What is pending is read, or moved aside when it cannot be decoded; every durable state keeps what was tracked |
| BindingStartup.Transfer | internal/app/runtime_checkpoint.go:115-127 | The pending file takes over the checkpoint's resources before the checkpoint is removed |
| BindingStartup.ClaimAll | internal/app/runtime_checkpoint.go:233-268 | Each binding in turn is claimed, refused, left for the next start, or skipped because it has expired; without failures exactly those in time are settled |
| BindingStartup.Persist | internal/app/runtime_checkpoint.go:233-286 | What is neither claimed, refused nor expired stays in the pending file, also when writing or removing it fails; without failures nothing stays |
| CatalogSync.RunConsistent | internal/control/catalog_sync.go:368-578 | In every run one goroutine at most executes, it is the one in flight, and its phase says what is pending, published and stored |
| CatalogSync.AtMostOneExecutes | internal/control/catalog_sync.go:368-412 | Two executing calls are the same call, the one new callers join |
| CatalogSync.JoiningWaits | internal/control/catalog_sync.go:381-386 | A caller that arrives during a synchronization starts none, waits for that one, and cannot return before it is closed |
| CatalogSync.SyncBegins | internal/control/catalog_sync.go:368-412 | A caller that finds no synchronization under way begins exactly one and waits for it, unless the coordinator is shutting down or the caller skips |
| CatalogSync.CloseReports | internal/control/catalog_sync.go:414-466 | A synchronization that is over reports its outcome to all who wait for it and makes way for the next |
| CatalogSync.JoinedGetOneResult | internal/control/catalog_sync.go:414-466 | A call has one result, which everyone waiting for it reads |
| CatalogSync.NoneStartsAfterShutdown | internal/control/catalog_sync.go:301-315 | After shutdown no synchronization begins; only the one under way may still run |
| CatalogSync.RequestsAreUpToDate | internal/control/catalog_sync.go:508-540 | A request goes out only when nothing is pending, and carries the validators that came with the snapshot being served |
| CatalogSync.AcceptedNotModifiedIsServed | internal/control/catalog_sync.go:546-554 | An accepted 304 confirms validators that came with the served snapshot, which it leaves alone (section 15.4.5 of RFC 9110) |
| CatalogSync.PendingIsAppliedFirst | internal/control/catalog_sync.go:512-532 | A generation whose application failed is applied by the next synchronization before upstream is asked |
| CatalogSync.RestartIsPaired | internal/control/catalog_sync.go:50-86 | A restart serves the cached snapshot with the validators it was stored with; without a cache that can be read, the embedded catalog without validators |
| CatalogExecutor.Coordinator.ExecuteSync | internal/control/catalog_sync.go:508-578 | Every execution is a path of the machine, and its outcome and every field of the coordinator follow from what was pending, what upstream answered, and how the cache write and the publication went |
| CatalogExecutor.Coordinator.SyncBody | internal/control/catalog_sync.go:508-578 | The body step by step is a path of the machine; with a pending generation nothing is fetched |
| CatalogExecutor.WalkMeans | internal/control/catalog_sync.go:508-578 | Every path of the machine from beginning to end: a pending generation is published and recorded or stays; a 304 renews only the time of the check; a full answer is cached, published and recorded, or left pending, or dropped with the cache write |
| CatalogExecutor.WalkHolds | internal/control/catalog_sync.go:508-578 | Along every such path the phase conditions hold: the validators kept belong to the published snapshot in every phase but the commit, where a new snapshot is published and its validators are about to be recorded |
| AutomodelText.ClipGrows | internal/automodel/context.go:431-444 | A longer cut of a text is never smaller in JSON, as long as something is cut |
| AutomodelText.ClippedSize | internal/automodel/context.go:431-444 | A cut text has at most the bytes asked for, and its JSON size is that of its two ends and the marker |
| AutomodelText.HeadIsLongest | internal/automodel/context.go:436-440 | The head of a cut is the longest run of whole code points within its bytes |
| AutomodelText.TailIsLongest | internal/automodel/context.go:440-443 | The tail of a cut is the longest run of whole code points within its bytes |
| AutomodelText.TailIsSuffix | internal/automodel/context.go:440-443 | The tail of a cut is the end of the text |
| AutomodelEncoding.ClipKeepsBothEnds | internal/automodel/context.go:431-444 | A text over its limit keeps the longest beginning and the longest end of whole code points that fit into half of what the marker leaves |
| AutomodelText.Fit | internal/automodel/context.go:372-387 | The binary search finds the largest limit whose clip of an oversized message fits, or there is none |
| AutomodelText.ShortFramesFit | internal/automodel/context.go:372-387 | Some clip fits once the budget covers the frame, role, kind and six times the bytes of the shortest clip |
| AutomodelFair.Allocate | internal/automodel/context.go:332-357 | Whatever order the unsettled messages are visited in, the loop ends with one level: every share is the smaller of size and level, the level is the largest that fits, and shares never fall between passes |
| AutomodelFair.FairIsBest | internal/automodel/context.go:332-357 | No level that fits is above the fair one |
| AutomodelFair.Pass | internal/automodel/context.go:339-349 | One pass settles exactly the messages within the share, in any order, and keeps the books |
| AutomodelFair.Spread | internal/automodel/context.go:353-356 | When nothing more settles, every unsettled message gets the share, and all shares are sizes capped by it |
| AutomodelCompact.CompactFair | internal/automodel/context.go:325-370 | The encoded list is within the budget; an oversized list is fitted to max-min fair shares, a fitting one returned as it is |
| AutomodelCompact.CompactNewest | internal/automodel/context.go:294-323 | Newest first, each message takes what the newer ones leave it: itself, its longest fitting clip, or nothing; the sizes together are within the budget, and it is truncated exactly when a message is missing or clipped |
| AutomodelEncoding.NewestKept | internal/automodel/context.go:294-323 | A message is kept whole exactly if the encoded list of it and what is kept of the newer ones fits the budget; else its largest clip that does, else nothing |
| AutomodelEncoding.MessageIsWritten | internal/automodel/context.go:22-26 | The size of a message is the length of its JSON object |
| AutomodelEncoding.ListIsWritten | internal/automodel/context.go:429 | The size of a list is the length of its JSON array |
| AutomodelEncoding.StateIsWritten | internal/automodel/context.go:28-39 | The size of a state is the length of its JSON object |
| AutomodelCompact.CompactRecent | internal/automodel/context.go:266-292 | Conversation and tool results are selected separately and kept in order; together they take at most 3071 bytes; it is truncated exactly when one of them is, and otherwise all is kept |
| AutomodelBudget.Shrink | internal/automodel/context.go:217-239 | Removes no more than it must: instructions from the end, then context from the front, one fewer removal would not fit; a state that fits is untouched; it fails only with nothing left to remove |
| AutomodelBudget.DropInstructions | internal/automodel/context.go:219-232 | The running size is the encoded size after every removal; instructions are removed from the end, just until the state fits |
| AutomodelBudget.DropContext | internal/automodel/context.go:219-236 | The running size is the encoded size after every removal; context is removed from the front, just until the state fits |
| AutomodelBudget.Extract | internal/automodel/context.go:171-240 | For every conversation with a task the encoded state is within 16 KiB without any removal, so the current task is never too large; it holds the current task or its longest clip, the context compacted from the user message before it, and the instructions or their fair shares; only a missing task is refused; an untruncated state is complete |
| AutomodelBudget.PartsFit | internal/automodel/context.go:184-218 | The budgets of task, context and instructions and the frame together are below the state's |
| AutomodelBudget.FitTask | internal/automodel/context.go:184-194 | The current task itself, or its longest clip within the budget for it, which always exists |
| AutomodelRequest.RequestNeverTooLarge | internal/automodel/decision.go:60-86 | For any subset of accepted presets and any state within its limit, the request is within 24 KiB |
| AutomodelRequest.BuildRequest | internal/automodel/decision.go:60-86 | The request is measured exactly and refused exactly when over 24 KiB, which for presets of an accepted model and an extracted state never happens |
| AutomodelEncoding.EntryIsWritten | internal/automodel/decision.go:68-71 | The size of a criterion is the length of its key and value in JSON |
| AutomodelEncoding.CriteriaAreWritten | internal/automodel/decision.go:68-71 | The size of the criteria is the length of their JSON object, whatever the order of its keys |
| AutomodelEncoding.RequestIsWritten | internal/automodel/decision.go:72-81 | The size of a request is the length of its JSON object |
| AutomodelConfig.CheckEntry | internal/automodel/config.go:164-209 | An entry is accepted exactly when its names are valid, its presets are valid and distinct, its fallback is one of them and its criteria leave the state its room |
| AutomodelConfig.CheckOptions | internal/automodel/config.go:172-200 | The presets are accepted exactly when their names and descriptions are valid, no ID repeats and, while enabled, every target exists; their IDs are returned |
| AutomodelConfig.NamesAreTrimmed | internal/automodel/config.go:222-224 | A name is valid exactly if it has 1 to 255 bytes, no control characters, and trimming leaves it as it is; a text is blank exactly if trimming leaves nothing |
| AutomodelConfig.CheckTargets | internal/automodel/config.go:212-218 | Accepts exactly when no preset targets an automatic model |
| AutomodelConfig.Compile | internal/automodel/config.go:118-220 | A configuration is accepted exactly when its timeout and deciding model are valid, all entries are, IDs and names are unique, and no preset targets an automatic model |
| AutomodelConfig.EnabledIsNotRecursive | internal/automodel/config.go:212-218 | While automatic models are enabled the recursion check cannot fail |
| AutomodelConfig.AcceptedEntriesFit | internal/automodel/config.go:204-209 | For every entry of an accepted configuration, any of its presets and any extracted state, the request is within its limit |
| TextOrder.DigitsCompareAsNumbers | internal/catalog/client_model_catalog.go:46-52 | Comparing digit strings by length without leading zeros and then by text is comparing the numbers they write |
| DirectoryOrder.Compare | internal/catalog/client_model_catalog.go:21-58 | The comparator orders by placement, then versions, newest first, then names |
| DirectoryOrder.CompareVersions | internal/catalog/client_model_catalog.go:36-54 | The part-by-part loop finds the first part in which two versions differ as numbers, missing parts counting as zero |
| DirectoryOrder.VersionIsRead | internal/catalog/client_model_catalog.go:9 | The version of a name is the dotted number written after "gpt-", part by part |
| DirectoryOrder.VersionNeedsANumber | internal/catalog/client_model_catalog.go:9 | A name has a version exactly if it starts with "gpt-" and a digit |
| DirectoryOrder.NewerComesFirst | internal/catalog/client_model_catalog.go:36-54 | Of two written versions in the same place the one with the larger number in the first differing part comes first |
| DirectoryOrder.PlaceThenVersionThenName | internal/catalog/client_model_catalog.go:21-58 | A place comes before none and before a later one, then a version before none, and then the name decides |
| DirectoryOrder.NeverBothWays | internal/catalog/client_model_catalog.go:21-58 | No two names precede each other |
| DirectoryOrder.DistinctCompare | internal/catalog/client_model_catalog.go:21-58 | Of two different names one precedes the other |
| DirectoryOrder.PrecedesTransitive | internal/catalog/client_model_catalog.go:21-58 | The order is transitive |
| DirectoryDraft.SortedUnique | internal/catalog/client_model_catalog.go:20-60 | There is one way to sort a set of names |
| DirectoryDraft.Sort | internal/catalog/client_model_catalog.go:20-60 | Sorting distinct names with the comparator gives the same names in order |
| DirectoryDraft.Selected | internal/clientcatalog/catalog.go:99-107 | The directory shown is the enabled candidates in order |
| DirectoryDraft.Apply | internal/control/client_catalog.go:90-170 | A draft is accepted exactly when it asks for something, matches the known models, and lists and describes only candidates, each once; then it places exactly the listed models, or resets all, or leaves the directory as it is; names that are not candidates keep their place, and exactly the described models get new metadata |
| DirectoryDraft.Place | internal/control/client_catalog.go:137-149 | Every candidate is enabled and numbered as listed or disabled and without a number; metadata and other names are untouched |
| DirectoryDraft.Describe | internal/control/client_catalog.go:151-169 | The described models get the metadata given for them, all others keep theirs, and nobody's place changes |
| DirectoryDraft.DraftSelectsItsList | internal/control/client_catalog.go:125-149 | After a draft with a list, the directory shows exactly that list in that order |
| DirectoryDraft.ResetSelectsDefaults | internal/control/client_catalog.go:97-103 | After a reset the directory shows the default models in the default order |
| DirectoryDraft.DefaultIsOffered | internal/catalog/client_model_catalog.go:12-17 | The default models are those that start with "gpt-" and are no image models |
| DirectoryBuild.Build | internal/clientcatalog/catalog.go:110-155 | The response holds exactly the longest prefix of the selection whose JSON fits the limit, and its sizes are reported |
| DirectoryBuild.BodyIsWritten | internal/clientcatalog/catalog.go:110-155 | The size of the body is the length of its JSON text |
| AuthLimiter.CleanupIsUnobservable | internal/control/auth_limiter.go:78-98 | With a clock that does not go back, every decision is the one of a limiter that never cleans up |
| AuthLimiter.EntriesBounded | internal/control/auth_limiter.go:40-98 | An unlocked entry holds at most four failures, a locked one none |
| AuthLimiter.Decide | internal/control/auth_limiter.go:40-76 | An attempt is authorized exactly when it is valid, locked or not |
| AuthLimiter.AtMostFiveFailures | internal/control/auth_limiter.go:40-76 | Between valid logins a peer has at most five failures evaluated while not locked in any half-open 30-minute span |
| AuthLimiter.FifthFailureLocks | internal/control/auth_limiter.go:40-76 | A failure newly locks exactly when it is the fifth of the last half hour since the last valid login and the last lock, for half an hour; a failure during a lock is told the rest of it; no other failure is told to wait |
| AuthLimiter.RunReflects | internal/control/auth_limiter.go:40-98 | Over every run the entry holds the end of the last lock and the failures that the answers so far say |
| AuthLimiter.Retain | internal/control/auth_limiter.go:100-108 | Exactly the failures after the cutoff are kept, in order |
| AuthLimiter.FailureLimiter.CleanUp | internal/control/auth_limiter.go:78-98 | Once a minute, and else nothing: a lock stays exactly until it ends, an unlocked entry exactly while a failure of the last half hour is left, with those failures |
| AuthLimiter.FailureLimiter.Evaluate | internal/control/auth_limiter.go:40-76 | The decision and the new entries are those of the run lemmas |
| PriceParse.ExponentNumbersAreExact | internal/catalog/parse.go:461-517 | For every JSON number with an exponent in int32, the amount is exactly the number in billionths of a dollar, and there is an error exactly when no int64 amount equals it |
| PriceParse.ExpandIsExact | internal/catalog/parse.go:480-517 | The plain decimal built from mantissa and exponent is worth exactly what they are |
| PriceParse.PlainIsExact | internal/catalog/parse.go:487-517 | Zero padding, appending and splitting the significant digits preserve their value with at most nine places, or no such decimal exists |
| PriceParse.LongFractionsAreRounded | internal/catalog/parse.go:521-542 | A plain number with at least fifteen places is rounded, or refused when it would become zero or exceed int64 |
| PriceParse.RoundedIsNearest | internal/catalog/parse.go:530-540 | No billionth is nearer, of two equally near ones it is the larger, and only zero becomes zero |
| PriceParse.RoundedExists | internal/catalog/parse.go:530-540 | There is no rounded amount exactly for a price that is not zero but below half a billionth, and for one from half a billionth beyond the largest int64 on |
| PriceParse.ShortFractionsAreExact | internal/catalog/parse.go:461-474 | Other plain numbers are exact with at most nine places and refused beyond |
| PriceDecimal.ParsedPlain | internal/pricing/nanousd.go:23-41 | A plain decimal is worth its digits padded to nine places, if that fits int64 |
| PriceDecimal.OnlyPlainDecimals | internal/pricing/nanousd.go:23-41 | Of all texts exactly the decimals with at most nine places whose worth fits int64 are accepted, each for what it is worth |

## Left out

- HTTP handlers, middleware, request decoding and response mapping, logging and metrics.
- gorm, SQL dialects, encryption, hashing and OAuth drivers: rows are maps with atomic guarded updates, payloads opaque text, provider answers nondeterministic.
- The device polling interval, the event loop with its timers and debouncing, and the process lifecycle.
- JSON decoding and catalog schema parsing; only encoded lengths and the price arithmetic are modelled.
- Model discovery, credential probing, observation refresh, import batches, endpoint normalisation and the channel compiler.
- The HTTP statuses an upstream error is classified by, and the observation refresh after a reset credit is consumed.
- The in-memory part of a checkpoint restore (registry, statistics, response bindings) and saving the checkpoint at shutdown.
- Time is integer milliseconds, read once per step, except for the three readings of a browser claim; where a lemma needs the clock not to go back it says so.
- QuotaRuns.AccountingLaw: for a window generation below the largest uint64, where the code stops counting, and for reconfigurations that never bring back a retired rule and revision, which would start it again from nothing; row IDs and revisions only grow.
- QuotaCheckpoint.CheckpointLossless: versions are taken to stay below the largest uint64, and an edit that changes a rule gives it a revision not used before.
- QuotaRuntime.Runtime.Reconcile: the locks are modelled in QuotaConcurrency, not on the classes.
- RuleEditing.Reconcile: a failed edit is rolled back by the caller's transaction, which is not modelled.
- AffinityRuns.VersionsNeverReused: for fewer than 2^64 accepted records; the counter itself is modelled with wrap-around.
- AffinityRuns.ReplacesOnlyWhatWasSeen: for fewer than 2^64 accepted records.
- StageRuns.RunInvariant: stage IDs and OAuth state hashes are random in the program and taken never to repeat; a failing statement is taken to change nothing, a thread works on one stage at a time, and the clock does not go back between the deadline and the time of change of one browser claim.
- StageStore.Store.Consume: the batch's IDs are taken to be distinct, as their normalisation guarantees; other transactions appear as the troubles they cause; secret versions are unbounded.
- ResetRuns.NeverTwoOpen: needs strictly later stamps; ResetRuns.RunKeepsOneOpen says exactly when the code keeps the rule without them.
- FileReplacement.Folder.Remove: a refused removal is taken to leave the file.
- FileReplacement.Store: starts where the document is encoded; its validation and size limit are left out.
- BindingStartup.Restore: a resource with a record that expires between the first and the last reading of the clock is not promised to be kept, because the code may lose it: BindingRestore.KeptExactly says exactly when. With a database at hand; claims are idempotent, and a failed claim may or may not have reached the database.
- QuotaAccounting.ConcurrentAccounting: for schedules whose completions present tickets issued before and whose reconfigurations bring no retired rule and revision back, as for QuotaRuns.AccountingLaw.
- CatalogSync.RunConsistent: cancellation is one of the ways a step can fail.
- AutomodelText.Clip: texts are sequences of code points with their widths, so cutting at byte offsets and repairing the ends is one function.
- AutomodelBudget.Extract: starts from the messages read from the body; reading the four protocols is left out.
- AutomodelConfig.CheckOptions: whether the parameter overrides of a preset compile is a flag.
- AutomodelConfig.CheckEntry: takes that flag for each of its presets.
- AutomodelConfig.Compile: takes that flag too; copying the configuration by encoding and decoding it, with its limit of 1 MiB, is left out.
- DirectoryDraft.Apply: metadata is opaque and its validation one flag; candidates are a parameter.
- DirectoryBuild.Build: takes the encoded sizes of the models; a model that cannot be encoded is left out.
- PriceParse.Rounded: rounds the fraction as written, where the program first reduces it.
