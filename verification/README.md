# AutoHarness core protocols in Dafny

This project models the stateful cores of the AutoHarness desktop application and proves what every run of them
keeps. `dafny verify dfyconfig.toml` checks all of it.

- **Credentials** (`Vault.dfy`, `VaultText.dfy`, `VaultRuns.dfy`, `VaultKeys.dfy`, `VaultLate.dfy`, `OsKeyring.dfy`,
  `Profiles.dfy`, `ProfileApart.dfy`, `ProfileRuns.dfy`, `ProfileOverlap.dfy`). A secret lives in the operating system's
  keyring as chunks of one of two generations behind a manifest; a profile document links it by a deterministic
  reference. Saving, replacing, disconnecting, deleting and recovering are sequences of single durable writes. Each
  access may fail, and a crash is a fault schedule in which every later one fails. `VaultRuns` gives the entries after
  each single write of a vault call as a function of the schedule, proves when a call is all or nothing, and proves that
  over references with disjoint keys each call is a step of a map from references to secrets; `VaultKeys` says which
  keys a call leaves in the keyring, `VaultText` which texts the vault takes, and `VaultLate` adds calls that report a
  failure and take effect. The keyring objects of `OsKeyring` follow those traces. `ProfileRuns` runs the profile
  manager on them: `Keyring.history` and `ProfileManager.log` record every durable state, so what is stated about them
  holds wherever a run stops. `ProfileApart` proves for which identities fault-free runs keep the credentials in step.
- **Renderer bridge** (`Delta.dfy`, `Bridge.dfy`, `BridgeCarrier.dfy`, `BridgeBounds.dfy`, `BridgeAnswers.dfy`,
  `BridgeAcks.dfy`, `BridgeSteps.dfy`, `BridgeProgress.dfy`, `BridgeLoss.dfy`, `BridgeShutdown.dfy`, `BridgeStuck.dfy`,
  `BridgeActor.dfy`). A stop-and-wait carrier sends snapshots, incremental updates and notices to a renderer, over
  channels that can fail and be replaced. `Bridge` is the transition system with the history of its requests;
  `BridgeCarrier` says what the renderer shows, `BridgeBounds` and `BridgeAnswers` which requests wait and why,
  `BridgeAcks` when a frame and a request are released, `BridgeSteps` what is admitted, sent and observed,
  `BridgeProgress` what is delivered and what waits forever, `BridgeLoss` what a renderer shows that misses frames,
  `BridgeShutdown` how shutdown is announced, `BridgeStuck` holds the run that blocks the bridge, and `BridgeActor` the
  object whose turns are transitions.
- **Memory ledger** (`Ledger.dfy`, `Planner.dfy`, `LedgerSteps.dfy`, `LedgerRuns.dfy`, `LedgerItem.dfy`,
  `LedgerOutcomes.dfy`, `LedgerStore.dfy`, `LedgerPointer.dfy`, `LedgerAudit.dfy`, `LedgerWitness.dfy`). Commands are
  planned into atomic batches of lifecycle operations; the store folds the operations into revision states, and can
  rebuild those states from the operations. `LedgerOutcomes` says what each command does and exactly when, and
  `LedgerStore` what the store keeps under any batches.
- **History compaction** (`Compaction.dfy`, `CompactionChain.dfy`, `CompactionSupply.dfy`, `CompactionUnwind.dfy`). A
  size-bounded newest-first record of completed attempts, extended call by call, with a chained hash of what was
  omitted.
- **Startup recovery** (`Engine.dfy`, `Recovery.dfy`, `RecoveryProofs.dfy`, `RecoverySweep.dfy`,
  `RecoveryProposals.dfy`, `RecoveryExact.dfy`, `RecoveryCalls.dfy`, `RecoveryTurns.dfy`, `RecoveryWork.dfy`). The
  session aggregate, the reconciliation of interrupted tool calls and attempts, the ledger check behind it, and the
  guarded start of a recovered turn. `RecoveryExact` says which stored contexts are exact; `RecoveryCalls`,
  `RecoveryTurns` and `RecoveryWork` say what whole runs of commands, crashes and restarts do with tool calls and turns.
- **Provider list** (`Providers.dfy`). The bounded list of connections and the search for a free identity.

`Text.dfy` and `Lists.dfy` hold decimal text, splitting, lookup by identity and the size of subsets.

Where the code and the design disagree the code is modelled, with an input that fails and the exact condition under
which it meets the design:

- a save whose first read fails over a live generation `a` mixes or loses both secrets: `VaultRuns.SaveAtomicIff`,
  `VaultRuns.UnsafeSaveLosesSecret`, `VaultRuns.UnsafeSaveMixes`;
- profile identities may spell each other's chunk keys, and then saving or disconnecting one profile destroys another's
  credential; fault-free runs keep the invariant if and only if none does: `ProfileApart.RunsKeepIff`,
  `ProfileApart.SaveStrays`, `ProfileApart.ReplaceStrays`, `ProfileOverlap.SecondSaveCorrupts`,
  `ProfileOverlap.DisconnectDangles`;
- a manifest write that reports a failure and takes effect is followed by a cleanup that erases the new secret:
  `VaultLate.LateReplaceSurvivesIff`;
- a replacement that fails because a chunk or the manifest cannot even be opened leaves the chunks written before it in
  the keyring: `VaultKeys.FailedReplaceTidyIff`;
- an edit that brings its own credential: `Profiles.UpsertKeepsIff`;
- an incremental update loses memory and the recovery count: `Delta.DeltaExactIff`, `Delta.RecoveryCountIsNotCarried`,
  `BridgeCarrier.RendererShowsLastSnapshot`;
- a sign-in that completes while its own notice is queued keeps its request for good, and 32 of them block the bridge:
  `BridgeAnswers.ReleasedIff`, `BridgeStuck.OneRequestStays`, `BridgeStuck.ThirtyTwoBlock`;
- an active revision can be left without its item's pointer: `LedgerPointer.ActiveWithoutPointerIff`,
  `LedgerWitness.DeletedProposalTakesPointer`, `LedgerWitness.PointerCanBeLost`;
- a rebuild can erase a live text: `LedgerAudit.RebuildRestores`, `LedgerWitness.RebuildErasesLateText`;
- attempts that complete twice give records that their own validator refuses: `CompactionChain.ValidIff`,
  `CompactionChain.FirstCallRepeats`, `CompactionChain.RecurringAttemptBreaksCount`,
  `CompactionChain.RecurringAttemptRepeats`;
- groups that arrive late are lost: `CompactionSupply.CoversSuppliedIff`, `CompactionSupply.LateGroupIsMissing`;
- a second recovery pass need not be silent: `RecoveryProofs.SecondPassSilentIff`,
  `RecoveryProofs.DisturbedIsReachable`, `RecoverySweep.SecondSweepSilentIff`.

Hashes are collision free: a hash is modelled by what it hashes (`Ledger.OperationId`, `Compaction.Digest`) or by an
arbitrary function. Clocks, random identities, the text analyses of the memory validator and the encoded size of a
history group are parameters.

## Model

| member | source | states |
|---|---|---|
| Text.ParseUsizeDecimal | crates/autoharness-app/src/vault.rs:177-203 | Printing a count and parsing it back gives the same count, for every 64-bit number |
| Vault.ManifestRoundTrip | crates/autoharness-app/src/vault.rs:177-203 | Every manifest the vault writes parses back to the same generation and count |
| VaultText.ManifestIff | crates/autoharness-app/src/vault.rs:177-203 | A text is read as a manifest of a generation and a count if and only if it is the prefix, `a` or `b`, and a decimal count from 1 to 32, in exactly three fields; any other text with the prefix is an error |
| VaultText.NewReferenceIff | crates/autoharness-app/src/vault.rs:264-266 | A reference is accepted if and only if it is not empty once trimmed and small enough, and the vault uses the trimmed text |
| VaultText.PlainValueLoads | crates/autoharness-app/src/vault.rs:283-300 | A value without the manifest prefix loads as itself |
| VaultText.LoadedIsValid | crates/autoharness-app/src/vault.rs:283-300 | Whatever chunks are stored, a secret assembled from them is a valid secret |
| Vault.ChunkReferenceInjective | crates/autoharness-app/src/vault.rs:173-175 | Different references, generations or chunk indexes have different keyring keys |
| Vault.LoadFrame | crates/autoharness-app/src/vault.rs:283-300 | A load depends only on the manifest entry and the chunks of the generation it names |
| Vault.StoredSecretLoads | crates/autoharness-app/src/vault.rs:214-246 | Chunks plus manifest load back as the exact secret, for every valid secret |
| Vault.IdleGenerationIsInvisible | crates/autoharness-app/src/vault.rs:214-246 | Writing or deleting chunks of the generation that the manifest does not name changes no load |
| Vault.UntouchedLoads | crates/autoharness-app/src/vault.rs:264-334 | A reference with disjoint keys keeps loading what it loaded |
| VaultRuns.ErasingConfined | crates/autoharness-app/src/vault.rs:205-212 | Deleting a generation changes only chunks of that generation, in every state it writes and under any faults |
| VaultRuns.WritingChunkedPublishes | crates/autoharness-app/src/vault.rs:214-248 | A write that fails changes nothing but chunks of its generation; one that succeeds has changed nothing else before its last write, which puts the manifest in place |
| VaultRuns.StoringIsAtomic | crates/autoharness-app/src/vault.rs:273-280 | Writing over a generation that the manifest does not name and dropping the old one is all or nothing at every write; what it leaves of the old one is `VaultKeys.StoringStores` |
| VaultRuns.SavingIsAtomic | crates/autoharness-app/src/vault.rs:264-281 | A save that succeeds loads back; it is all or nothing at every write when it is safe, and never touches keys of another reference |
| VaultRuns.SaveAtomicIff | crates/autoharness-app/src/vault.rs:264-281 | For entries that load a secret: a save is all or nothing under every schedule of the other calls if and only if the first read succeeds, there is no manifest, or the live generation is `b` |
| VaultRuns.UnsafeSaveLosesSecret | crates/autoharness-app/src/vault.rs:264-275 | The first read fails, the first chunk is written, the next write fails and the cleanup succeeds: the save fails and neither secret loads |
| VaultRuns.UnsafeSaveMixes | crates/autoharness-app/src/vault.rs:264-275 | Stopped after the first chunk of such a save, a load gives the new first chunk and the old rest, which for full chunks is neither secret unless the chunks happen to agree |
| VaultRuns.ReplacingIsAtomic | crates/autoharness-app/src/vault.rs:302-318 | Replacing is all or nothing at every single write, under any faults |
| VaultRuns.DeletingVanishes | crates/autoharness-app/src/vault.rs:320-334 | Every state that a deletion writes is without the entry, and a failed deletion leaves the entries as they were |
| VaultRuns.QuietSucceeds | crates/autoharness-app/src/vault.rs:264-334 | Without faults a valid secret is saved, replaces any that loads, and a deletion succeeds |
| VaultRuns.ReplaceRefinesMap | crates/autoharness-app/src/vault.rs:302-318 | Over references with disjoint keys, replacing, stopped at any write, is an update of the map from references to secrets or nothing |
| VaultRuns.SafeSaveRefinesMap | crates/autoharness-app/src/vault.rs:264-281 | Over such references a safe save, stopped at any write, is an update of that map or nothing |
| VaultRuns.SaveRefinesMap | crates/autoharness-app/src/vault.rs:264-281 | Over such references any save, stopped at any write, changes the map at its own reference only, and success is exactly an update |
| VaultRuns.DeleteRefinesMap | crates/autoharness-app/src/vault.rs:320-334 | Over such references a deletion, stopped at any write, is a removal from the map or nothing |
| VaultKeys.ErasingLeaves | crates/autoharness-app/src/vault.rs:205-212 | Erasing a generation leaves exactly the chunks whose own open or delete call failed |
| VaultKeys.StoringStores | crates/autoharness-app/src/vault.rs:273-280 | The common tail of save and replace leaves, of every key, exactly: the new manifest, the new chunks, of the old chunks those whose own call failed, and everything else as it was |
| VaultKeys.ReplaceLeaves | crates/autoharness-app/src/vault.rs:302-318 | So does every replacement that succeeds, under any faults |
| VaultKeys.OldChunkLeftIff | crates/autoharness-app/src/vault.rs:302-318 | An old chunk outlives a successful replacement if and only if its own open or delete call failed |
| VaultKeys.ReplaceIsTidy | crates/autoharness-app/src/vault.rs:302-318 | Over a reference whose keys are its manifest and the chunks it names, when no old chunk is missed, the keys left are exactly the reference and the new chunks |
| VaultKeys.SaveLeaves | crates/autoharness-app/src/vault.rs:264-281 | Every save that succeeds leaves exactly these entries, a manifest that could not be read counting as none |
| VaultKeys.SaveIsTidy | crates/autoharness-app/src/vault.rs:264-281 | The same of a save whose first read succeeds: no key of the old secret is left |
| VaultKeys.DeleteLeaves | crates/autoharness-app/src/vault.rs:320-334 | A deletion that succeeds leaves no entry and, of its chunks, exactly those whose own call failed |
| VaultKeys.DeleteLeavesNothingIff | crates/autoharness-app/src/vault.rs:320-334 | No key of the reference is left if and only if its manifest was read and no chunk was missed |
| VaultKeys.FailedReplaceTidyIff | crates/autoharness-app/src/vault.rs:214-248 | A replacement that fails after its reads leaves no new chunk behind if and only if none was written, or the failing call was a write and the cleanup missed none |
| VaultKeys.ReplaceReports | crates/autoharness-app/src/vault.rs:302-318 | The error of a replacement: a check that it failed, or what its first failing call reports |
| VaultKeys.SaveReports | crates/autoharness-app/src/vault.rs:264-281 | The error of a save: a check that it failed, or what its first failing call other than the lenient read reports |
| VaultKeys.DeleteReports | crates/autoharness-app/src/vault.rs:320-334 | A deletion fails if and only if its entry cannot be opened or deleted, with that error; a missing entry is none |
| VaultLate.NeverLateReplacing | crates/autoharness-app/src/vault.rs:302-318 | When no failed call takes effect this is the replacement of the other rows |
| VaultLate.LateReplaceFate | crates/autoharness-app/src/vault.rs:236-246 | Replacing a secret that loads stays all or nothing at every write however many failed chunk writes and deletions take effect; after a failed manifest write that takes effect it fails, and what is left is the new secret if the cleanup erases no chunk, and nothing that loads otherwise |
| VaultLate.LateReplaceSurvivesIff | crates/autoharness-app/src/vault.rs:236-246 | The old or the new secret is left if and only if no such manifest write is followed by a cleanup that erases a chunk |
| OsKeyring.KeyringVault.Save | crates/autoharness-app/src/vault.rs:264-281 | The keyring goes through exactly the writes of the trace; success loads the exact secret and leaves of the old one exactly the chunks whose own call failed; every write is all or nothing when the save is safe |
| OsKeyring.KeyringVault.Load | crates/autoharness-app/src/vault.rs:283-300 | A success is exactly what the entries hold, and without faults so is a failure |
| OsKeyring.KeyringVault.Replace | crates/autoharness-app/src/vault.rs:302-318 | After every single keyring write, under any faults, a load gives the whole old or the whole new secret, and the result says which; success leaves of the old one exactly the chunks whose own call failed |
| OsKeyring.KeyringVault.Delete | crates/autoharness-app/src/vault.rs:320-334 | Every state written is without the entry, a failure leaves the entries as they were, and success leaves exactly the chunks whose own call failed |
| Profiles.DeterministicReferenceInjective | crates/autoharness-app/src/profiles.rs:727-730 | Different profiles have different vault references |
| Profiles.DeterministicReferenceIsAccepted | crates/autoharness-app/src/profiles.rs:727-730 | A profile's reference passes the vault's own trimming and checks unchanged |
| Profiles.ProfilesOverlapIff | crates/autoharness-app/src/vault.rs:173-175 | Two profiles share a keyring key if and only if one identity is the other followed by `#v1#a#n` or `#v1#b#n` with n below 33 |
| Profiles.ApartIff | crates/autoharness-app/src/vault.rs:173-175 | The references of a set of profiles have pairwise disjoint keys if and only if no identity spells a chunk key of another that way |
| ProfileApart.DeedsKeep | crates/autoharness-app/src/profiles.rs:572-614 | For identities that do not spell each other's chunk keys every run of saves and replacements keeps the invariant |
| ProfileApart.SaveStrays | crates/autoharness-app/src/profiles.rs:572-596 | For every pair of identities that collide in generation `a`, a fault-free first save of the shorter from an empty keyring breaks the invariant |
| ProfileApart.ReplaceStrays | crates/autoharness-app/src/profiles.rs:599-614 | For every pair that collide in generation `b`, a fault-free save and replacement does |
| ProfileApart.RunsKeepIff | crates/autoharness-app/src/profiles.rs:572-614 | From every consistent start every fault-free run of saves and replacements keeps the invariant for all identities in use if and only if no identity spells a chunk key of another |
| ProfileOverlap.FirstSaveStrays | crates/autoharness-app/src/profiles.rs:572-596 | Profiles `p` and `p#v1#a#0`, no faults: saving the first leaves a vault entry of the second that is neither linked nor recorded |
| ProfileOverlap.SecondSaveCorrupts | crates/autoharness-app/src/profiles.rs:572-596 | Saving the second then makes the first load the text of a manifest |
| ProfileOverlap.DisconnectDangles | crates/autoharness-app/src/profiles.rs:617-622 | Disconnecting the first then deletes the entry that the second links |
| Profiles.EntryIsLinkedOrRecordedOnce | crates/autoharness-app/src/profiles.rs:309-398 | A vault entry is linked or has exactly one recovery record, never both |
| Profiles.BeginSaveKeeps | crates/autoharness-app/src/profiles.rs:309-322 | Recording an intended save keeps the invariant |
| Profiles.CommitSaveKeeps | crates/autoharness-app/src/profiles.rs:324-337 | Linking the entry and dropping its record in one document write keeps the invariant |
| Profiles.BeginDisconnectKeeps | crates/autoharness-app/src/profiles.rs:339-363 | Unlinking and recording the deletion in one document write keeps the invariant |
| Profiles.BeginDeleteKeeps | crates/autoharness-app/src/profiles.rs:365-398 | Deleting a profile by its deterministic reference keeps the invariant |
| Profiles.RemoveKeeps | crates/autoharness-app/src/profiles.rs:752-772 | A record may be removed once its entry is gone |
| Profiles.VaultStepKeeps | crates/autoharness-app/src/profiles.rs:572-702 | A vault write or removal at a recorded reference keeps the invariant |
| Profiles.NoRecordsMeansExact | crates/autoharness-app/src/profiles.rs:668-702 | With no records left the vault holds exactly the linked references |
| Profiles.UpsertKeepsIff | crates/autoharness-app/src/profiles.rs:237-272 | An upsert keeps the invariant if and only if it brings no credential of its own or the stored profile already has one |
| Profiles.UpsertStores | crates/autoharness-app/src/profiles.rs:237-272 | An upsert is refused if and only if it would change the kind of a profile with a credential; otherwise the profile has the kind and fields given and the credential it had, and nothing else changes |
| Profiles.DeleteClearsActive | crates/autoharness-app/src/profiles.rs:365-398 | Deleting a profile clears the active choice if it was the active one and leaves it otherwise |
| Profiles.ActiveKeeps | crates/autoharness-app/src/profiles.rs:275-298 | Choosing the active profile keeps the invariant |
| ProfileRuns.LinkedEntriesKept | crates/autoharness-app/src/profiles.rs:668-702 | A consistent state over unchanged profiles still holds every linked entry |
| ProfileRuns.SaveStretch | crates/autoharness-app/src/profiles.rs:572-592 | Every state that saving a recorded credential writes to the keyring is consistent and differs at that profile's reference only, however it ends |
| ProfileRuns.DeleteStretch | crates/autoharness-app/src/profiles.rs:691-702 | Every state that deleting a recorded credential writes is consistent, with the entry as it was or gone |
| ProfileRuns.ReplaceStretch | crates/autoharness-app/src/profiles.rs:599-614 | Every state that replacing a linked credential writes is consistent, with the old secret or the new one |
| ProfileRuns.ProfileManager.Upsert | crates/autoharness-app/src/profiles.rs:509-517 | One document write: the profile has the kind and the fields given, a stored credential link survives the edit, the active choice stays |
| ProfileRuns.ProfileManager.Duplicate | crates/autoharness-app/src/profiles.rs:519-534 | The copy has the source's kind and fields and never shares its credential |
| ProfileRuns.ProfileManager.SaveCredential | crates/autoharness-app/src/profiles.rs:572-596 | For any identities: success links the profile, leaves no record, and the vault loads exactly the stored secret; a failure leaves every profile as it was; without faults the manager ends as the specified save. For identities apart nothing else of the vault changes in any state written |
| ProfileRuns.ProfileManager.ReplaceCredential | crates/autoharness-app/src/profiles.rs:599-614 | For any identities: every durable state on the way loads the old or the new secret under the same document, the result says which is left, and without faults a loadable secret is replaced. For identities apart the rest of the vault stays as it was |
| ProfileRuns.ProfileManager.Disconnect | crates/autoharness-app/src/profiles.rs:617-622 | For any identities: success unlinks and removes the entry; a failed removal leaves a record for it |
| ProfileRuns.ProfileManager.DeleteProfile | crates/autoharness-app/src/profiles.rs:625-628 | For any identities: success removes the profile and its entry and clears the active choice if it was this one; otherwise the record is pending or nothing changed |
| ProfileRuns.ProfileManager.FinishRecord | crates/autoharness-app/src/profiles.rs:691-702 | For any identities: settles one record, entry first, record second |
| ProfileRuns.ProfileManager.RecoverPending | crates/autoharness-app/src/profiles.rs:668-689 | For any identities: keeps the profiles and returns the number of records left. For identities apart no state it writes lacks or changes a linked entry, and zero means that the vault holds exactly the linked references |
| ProfileRuns.ProfileManager.Run | crates/autoharness-app/src/profiles.rs:509-702 | Over the chunked keyring, in every run of requests, under any faults of document and keyring: every document ever written is orderly, every durable state satisfies the invariant when no identity spells a chunk key of another, and a fault-free run of saves and replacements is the run of the specification whose invariant decides which identities those are |
| Delta.SpliceRebuilds | crates/autoharness-client/src/delta.rs:37-59 | The prefix and suffix scans never overlap and the splice rebuilds the next transcript |
| Delta.SpliceIsShortest | crates/autoharness-client/src/delta.rs:37-59 | No single splice with the same effect carries fewer items |
| Delta.DeltaRoundTrip | crates/autoharness-client/src/delta.rs:126-243 | Whenever there is a delta, applying it to any agreeing baseline succeeds and gives the next snapshot on all compared and carried fields |
| Delta.DeltaExistsIff | crates/autoharness-client/src/delta.rs:126-243 | Between valid snapshots there is a delta if and only if nothing has moved but the active session, its own row and the recovery count |
| Delta.ApplyIsConfined | crates/autoharness-client/src/delta.rs:126-243 | Applying a delta succeeds only over the session it is about, changes that session and its row, and leaves a valid snapshot |
| Delta.DeltaExactIff | crates/autoharness-client/src/delta.rs:126-243 | The round trip is exact if and only if memory is empty and the recovery count did not move |
| Delta.RecoveryCountIsNotCarried | crates/autoharness-client/src/delta.rs:126-137 | Two valid snapshots that differ only in the recovery count give a delta that changes nothing |
| BridgeCarrier.StepKeeps | crates/autoharness-app/src/gui.rs:482-978 | Every step keeps: consecutive revisions, a renderer that shows exactly the last snapshot up to what deltas lose, notices in order |
| BridgeCarrier.RendererShowsLastSnapshot | crates/autoharness-app/src/gui.rs:891-978 | After every run each channel has received consecutive revisions from an initial snapshot; a renderer folding its frames holds exactly the last snapshot if and only if no delta followed the last complete frame, or memory is the default and the recovery count is that of the last complete frame; otherwise exactly these two fields differ |
| BridgeCarrier.NoticesFollowProjections | crates/autoharness-app/src/gui.rs:607-674 | Every delivered answer or shutdown notice is preceded on its channel by frames after which the renderer shows exactly a snapshot of all projection changes up to when it was queued, up to what deltas lose |
| BridgeLoss.LossNeverShowsWrong | crates/autoharness-client/src/frame.rs:85-130 | After every run, for every selection of the frames of a channel, with losses, repetitions and in any order: a renderer that holds a snapshot holds exactly what the frames up to its revision show |
| BridgeLoss.MissedFrameIsNoticed | crates/autoharness-client/src/frame.rs:85-130 | A renderer that missed frames is lost at the next frame that depends on them |
| BridgeLoss.ResynchronizationRepairs | crates/autoharness-client/src/frame.rs:85-130 | A newer resynchronization frame brings any renderer to exactly what one that missed nothing shows |
| BridgeAcks.StaleAcknowledgementIsIgnored | crates/autoharness-app/src/gui.rs:791-816 | An acknowledgement of another revision, or of nothing, leaves the whole state as it was |
| BridgeAcks.ReleasedIffAcknowledged | crates/autoharness-app/src/gui.rs:791-816 | After every run a frame in flight is released by a step if and only if the step acknowledges its revision; until then the sending side does not change |
| BridgeAcks.LeavesIffAnswered | crates/autoharness-app/src/gui.rs:791-816 | After every run a pending request leaves at a step if and only if the frame with its answer is acknowledged |
| BridgeAcks.LeftMeansAnswered | crates/autoharness-app/src/gui.rs:791-816 | A request that has left was answered, at some step since, by a frame that the renderer acknowledged |
| BridgeSteps.ConnectIff | crates/autoharness-app/src/gui.rs:482-498 | A channel is taken if and only if nothing is in flight, a snapshot can be mapped, a revision is left and the frame is taken; it has then received exactly that initial snapshot |
| BridgeSteps.PublishSends | crates/autoharness-app/src/gui.rs:891-930 | Publishing sends nothing over an equal snapshot, a delta if and only if one can carry the difference, and the complete snapshot otherwise |
| BridgeSteps.IntentAdmittedIff | crates/autoharness-app/src/gui.rs:500-605 | An intent is admitted if and only if there is a channel, no shutdown, an identity and room, and the application takes it; a refused one leaves no request |
| BridgeSteps.ResynchronizeAdmittedIff | crates/autoharness-app/src/gui.rs:500-605 | A resynchronization is admitted if and only if so, none is pending, and a frame is in flight or its snapshot leaves at once |
| BridgeSteps.GenerationCountsCatalogs | crates/autoharness-app/src/gui.rs:692-745 | Every step but a change only takes observed changes off, and the catalog generation counts those of the catalog |
| BridgeBounds.QueueFits | crates/autoharness-app/src/gui.rs:644-690 | The invariant bounds the queue by two notices a request and two shutdown phases |
| BridgeBounds.StepKeeps | crates/autoharness-app/src/gui.rs:482-868 | Every step that the application's promise allows keeps the bounds |
| BridgeBounds.QueuesStayBounded | crates/autoharness-app/src/gui.rs:57-60 | After every allowed run at most 32 requests wait and at most 66 notices are queued |
| BridgeAnswers.StepAccounts | crates/autoharness-app/src/gui.rs:482-868 | Every allowed step keeps the account of waiting requests, refuses no notice, and loses nothing that was closed |
| BridgeAnswers.NothingIsRefused | crates/autoharness-app/src/gui.rs:644-674 | In every allowed run no notice is ever refused for want of room: the application's, an answer's, a resynchronization's or a shutdown phase's |
| BridgeAnswers.WaitingIsAccounted | crates/autoharness-app/src/gui.rs:607-690 | After every allowed run a pending request is open, or has its answer queued or in flight or its snapshot to be sent, or is lost, and no two of these at once |
| BridgeAnswers.SettledLeavesLost | crates/autoharness-app/src/gui.rs:791-816 | When nothing is queued, in flight or to be sent, the pending requests that are not open are exactly the coalesced sign-ins and the resynchronizations dropped by a shutdown |
| BridgeAnswers.LostForever | crates/autoharness-app/src/gui.rs:791-816 | A lost request stays pending in every continuation of the run |
| BridgeAnswers.ReleasedIff | crates/autoharness-app/src/gui.rs:607-661 | When all is settled, a request whose final notice was taken in by any step of an allowed run, from the channel or drained by a shutdown, is still pending if and only if the notice ended a sign-in of which a notice was still queued; a committed or rejected answer always releases it |
| BridgeProgress.RoundsDeliver | crates/autoharness-app/src/gui.rs:791-868 | Connected, with a snapshot that can be mapped: after one accepted and acknowledged frame for each notice and projection due, exactly the queued notices have left, in their order, and exactly the requests with an answer due are released |
| BridgeProgress.RunDelivers | crates/autoharness-app/src/gui.rs:791-868 | From every allowed run 70 such steps deliver everything |
| BridgeProgress.HeldForeverIff | crates/autoharness-app/src/gui.rs:818-868 | The queue behind a notice that waits for a projection is held in every continuation of the projections and the carrier if and only if no continuation reaches a snapshot that can be mapped |
| BridgeShutdown.ShutdownIsAnnounced | crates/autoharness-app/src/gui.rs:752-816 | In every allowed run nothing of a shutdown is announced before it starts; once it has started the token is cancelled and what is left to announce is requested and ready, or ready, or nothing exactly when ready was acknowledged |
| BridgeShutdown.ReadyIsLast | crates/autoharness-app/src/gui.rs:752-816 | In every allowed run the queue of a started shutdown ends with ready, and nothing is queued once ready is in flight or acknowledged |
| BridgeStuck.OneRequestStays | crates/autoharness-app/src/gui.rs:649-661 | Connect, intent, browser opened, completed, two acknowledgements: the request is pending with nothing open, queued or in flight |
| BridgeStuck.BlockedForever | crates/autoharness-app/src/gui.rs:594-605 | Once 32 sign-ins were coalesced no intent, resynchronization or shutdown command is admitted in any continuation |
| BridgeStuck.ThirtyTwoBlock | crates/autoharness-app/src/gui.rs:594-605 | An allowed run that reaches this, over every view |
| BridgeActor.BridgeActor.Queue | crates/autoharness-app/src/gui.rs:644-674 | Replaces the first queued notice about the same sign-in, or appends while there is room |
| BridgeActor.BridgeActor.Turn | crates/autoharness-app/src/gui.rs:482-978 | One turn of the event loop is one step of the transition system, whose acknowledgements, admissions and shutdown the BridgeAcks, BridgeSteps and BridgeShutdown rows settle |
| BridgeActor.BridgeActor.Perform | crates/autoharness-app/src/gui.rs:482-978 | A whole life of the object is a run: the renderer shows the last snapshot, and under the application's promise the queues stay bounded, nothing is refused and every waiting request is accounted for |
| Planner.Validate | crates/autoharness-memory/src/validate.rs:93-179 | A result that is not a refusal vouches for the draft's own hash and never for a secret |
| Planner.VerdictMeaning | crates/autoharness-memory/src/validate.rs:93-234 | A draft is refused if and only if it is secret, malformed, of mismatched trust or a duplicate, and accepted if and only if it is none of these, comes from the user, contradicts nothing and looks like no injection |
| Planner.CandidatesMeaning | crates/autoharness-memory/src/validate.rs:93-179 | Duplicates are exactly the existing memories with the scope, kind, subject and hash of the draft; contradictions those it names and those about its known subject with another hash |
| Planner.DuplicateIsRefused | crates/autoharness-memory/src/validate.rs:93-179 | A draft is never let through when some existing memory has its scope, kind, subject and hash |
| Planner.TooManyCandidatesIff | crates/autoharness-memory/src/validate.rs:93-179 | Validation fails if and only if there are more than 256 of them |
| Planner.TrustIsEarned | crates/autoharness-memory/src/validate.rs:196-211 | A draft that is let through claims the approval of the user if and only if it comes from the user, and no more than its origin allows |
| Planner.DuplicateCandidates | crates/autoharness-app/src/memory_runtime.rs:170-223 | At most 256 heads of other items, each item once; an exact duplicate is never crowded out |
| Planner.BatchBuilder.Push | crates/autoharness-app/src/memory_runtime.rs:693-730 | The batch so far is the chain of its stages; a fifth operation or a full counter is refused |
| Planner.BuildBatch | crates/autoharness-app/src/memory_runtime.rs:631-741 | The builder yields the numbered, causation-chained batch, or nothing when it does not fit |
| Planner.PlanMemoryCommand | crates/autoharness-app/src/memory_runtime.rs:245-492 | The plan of a command on a snapshot, with the error of the first guard that fails; what each plan does to the item is `LedgerOutcomes.CommandOutcome` |
| Planner.PlansOnlyWhole | crates/autoharness-app/src/memory_runtime.rs:245-330 | A plan is made only over the item's own operations, numbered without a gap, revisions numbered without a gap, and the version that the command expects |
| LedgerSteps.ProjectsRevision | crates/autoharness-app/src/memory_runtime.rs:333-375 | Introduce, validate, activate, supersede leaves the successor active and the replaced revision superseded |
| LedgerSteps.ProjectsApproval | crates/autoharness-app/src/memory_runtime.rs:376-432 | An approval retires the proposal and its target and leaves a new revision active |
| LedgerSteps.RevisionKeeps | crates/autoharness-app/src/memory_runtime.rs:333-375 | A revision keeps the projection sound and only advances older revisions |
| LedgerSteps.ApprovalKeeps | crates/autoharness-app/src/memory_runtime.rs:376-432 | An approval keeps the projection sound and only advances older revisions |
| LedgerSteps.RetiringKeeps | crates/autoharness-app/src/memory_runtime.rs:433-484 | Rejecting, retracting or deleting keeps the projection sound |
| LedgerSteps.FirstProposalStandsAlone | crates/autoharness-app/src/memory_runtime.rs:376-400 | A proposal that supersedes nothing is the only revision, so nothing is active beside it |
| LedgerRuns.PlannedShape | crates/autoharness-app/src/memory_runtime.rs:245-492 | Every planned batch has at most four operations, introduces at most one revision first, and activates only in third place what was introduced trusted and accepted in second place |
| LedgerRuns.PlannedLeads | crates/autoharness-app/src/memory_runtime.rs:245-492 | Every planned batch applies to the projection it was planned on and leaves it sound |
| LedgerItem.LoadAllOperations | crates/autoharness-app/src/memory_runtime.rs:149-168 | Reading page by page until a short page gives the whole log |
| LedgerItem.AcceptedIff | crates/autoharness-store-sqlite/src/memory_store.rs:48-164 | The store commits a planned batch if and only if its identities are unused, its sequences fit and a creation starts at revision one |
| LedgerOutcomes.CommitsIff | crates/autoharness-app/src/memory_runtime.rs:245-492 | A command changes a good item if and only if it is for this item, the guards of its request hold and the store can take it |
| LedgerOutcomes.CommandOutcome | crates/autoharness-app/src/memory_runtime.rs:245-492 | It then leaves exactly what its request says: a rejection, retraction or deletion sets that one status, the last two take the pointer away and a deletion alone the texts; create, propose, revise and approve add the named revision with its text in the status due to it; any other command leaves the item as it was |
| LedgerStore.StoreStaysIntact | crates/autoharness-store-sqlite/src/memory_store.rs:48-164 | Whatever batches are offered to the store, planned or not: the log counts from one, opens with its only creation, has no identity and no command twice and every cause before its effect; rows count from one and come from the log; a verdict is about the text of its revision; a retained text is the one introduced and never a secret |
| LedgerStore.RepeatedBatchIsRecognised | crates/autoharness-store-sqlite/src/memory_store.rs:48-108 | A batch committed once is recognised as committed after any later batches, and changes nothing again |
| LedgerItem.RunKeeps | crates/autoharness-app/src/memory_runtime.rs:133-147 | Every run keeps the whole invariant, extends the log and advances revisions only forward |
| LedgerItem.AtMostOneActive | crates/autoharness-app/src/memory_runtime.rs:245-492 | After every run at most one revision is active, and it is from the user and user approved |
| LedgerItem.ActivationsAreJustified | crates/autoharness-app/src/memory_runtime.rs:584-741 | Every activation in every reachable log closes a causation chain that introduced a trusted revision and accepted it; every active revision has one |
| LedgerItem.NeverPromoted | crates/autoharness-app/src/memory_runtime.rs:376-432 | A revision that is not active at a batch boundary never becomes active |
| LedgerItem.StaleProposalStaysUnapprovable | crates/autoharness-app/src/memory_runtime.rs:376-400 | A revision that cannot be approved now can never be approved, the first one included |
| LedgerItem.SubjectNeverChanges | crates/autoharness-app/src/memory_runtime.rs:571-582 | In every run all revisions of an item keep the subject it was created with |
| LedgerItem.RetiredForever | crates/autoharness-app/src/memory_runtime.rs:295-432 | An item with no active revision and a decided first revision gains neither a revision nor an active one |
| LedgerPointer.ActiveWithoutPointerIff | crates/autoharness-store-sqlite/src/memory_store.rs:2260-2286 | After every run an active revision is left without its item's pointer if and only if some revision of the item was deleted after its activation; otherwise the item points to it |
| LedgerWitness.DeletedProposalTakesPointer | crates/autoharness-store-sqlite/src/memory_store.rs:2260-2286 | Create, propose over the active revision, delete the proposal: the first revision is active and the item has no pointer, for every such script |
| LedgerWitness.PointerCanBeLost | crates/autoharness-store-sqlite/src/memory_store.rs:2260-2286 | A concrete run of that kind |
| LedgerAudit.RebuildRestores | crates/autoharness-store-sqlite/src/memory_store.rs:1111-1136 | In every reachable state a rebuild succeeds and restores all revision states and the pointer; it restores the texts if and only if none was introduced after the last deletion, and otherwise erases them all |
| LedgerAudit.RetainedAfterDeletion | crates/autoharness-store-sqlite/src/memory_store.rs:2207-2286 | After a deletion some text is left if and only if a revision was introduced after the last deletion |
| LedgerAudit.ProposalStaysCommitted | crates/autoharness-app/src/proposal_runtime.rs:210-267 | Once a proposal under review is committed, the crash check on the first page of its log succeeds after any later commands while the text is retained |
| LedgerAudit.CommittedMeansNeverActive | crates/autoharness-app/src/proposal_runtime.rs:210-267 | When the crash check succeeds the first revision is that draft, and it is not active now or after any run |
| LedgerWitness.RebuildErasesLateText | crates/autoharness-store-sqlite/src/memory_store.rs:2737-2790 | Create, propose, delete the proposal, revise: the live store holds a text that a rebuild erases |
| LedgerWitness.RebuildCanEraseText | crates/autoharness-store-sqlite/src/memory_store.rs:2737-2790 | A concrete run of that kind |
| Compaction.DropUntilFits | crates/autoharness-app/src/context_runtime.rs:243-274 | The loop pops the oldest group until the record fits and ends; the record is chained as the CompactionUnwind rows say |
| Compaction.CompactHistory | crates/autoharness-app/src/context_runtime.rs:198-274 | The loop computes the specified record, whose contents the CompactionChain and CompactionUnwind rows settle, or fails exactly where that does |
| Compaction.ValidateHistory | crates/autoharness-app/src/context_runtime.rs:552-580 | The validator's loop accepts exactly balanced, newest-first records with distinct attempts |
| CompactionChain.CompactLongest | crates/autoharness-app/src/context_runtime.rs:212-274 | The record keeps the longest newest-first prefix that fits; a failure has one of the listed causes |
| CompactionChain.SortIsUniqueIff | crates/autoharness-app/src/context_runtime.rs:212-228 | The sorted groups are the same for every order in which they are supplied if and only if no two different groups share sequence and attempt |
| CompactionChain.OrderIndependent | crates/autoharness-app/src/context_runtime.rs:212-228 | Under that condition the record does not depend on the order in which groups are supplied |
| CompactionChain.ConservesIff | crates/autoharness-app/src/context_runtime.rs:217-242 | In a first call or a later one: retained plus omitted equals compacted if and only if the oldest new group is not another completion of the newest old attempt |
| CompactionChain.RecurringAttemptBreaksCount | crates/autoharness-app/src/context_runtime.rs:217-242 | One attempt completing twice at the seam gives a record whose counts do not balance and that its own validator refuses |
| CompactionChain.ValidIff | crates/autoharness-app/src/context_runtime.rs:552-580 | The validator accepts the record of a call, the first of a chain or a later one, if and only if the oldest new group is not another completion of the newest old attempt, the new groups it keeps are of different attempts, and none of these is an attempt of an old group it keeps |
| CompactionChain.ValidIffNothingDropped | crates/autoharness-app/src/context_runtime.rs:552-580 | When the call, first or later, drops nothing: if and only if no new group is of an old attempt and new groups of one attempt follow each other in sorted order |
| CompactionChain.RecurringAttemptRepeats | crates/autoharness-app/src/context_runtime.rs:217-242 | Attempts that recur apart from the seam: the counts balance and the validator still refuses the record |
| CompactionChain.FirstCallRepeats | crates/autoharness-app/src/context_runtime.rs:217-242 | A first call whose counts balance and whose record the validator refuses: attempts a, b, a |
| CompactionChain.DroppedHashesAreSorted | crates/autoharness-app/src/context_runtime.rs:267-273 | The hash of the omissions covers the source hashes of exactly the dropped groups, in hash order |
| CompactionUnwind.CompactChainsHash | crates/autoharness-app/src/context_runtime.rs:243-274 | The omission hash of a record chains that of the prior record and the source hashes of exactly the groups this call dropped |
| CompactionUnwind.ChainCommits | crates/autoharness-app/src/context_runtime.rs:435-449 | After any chain of calls, unwinding the final omission hash gives, as a multiset, exactly the source hashes of the covered groups that are not retained |
| CompactionUnwind.ChainAddsUp | crates/autoharness-app/src/context_runtime.rs:435-449 | The counts hashed along the chain add up to the number omitted |
| CompactionChain.CompactFiles | crates/autoharness-app/src/context_runtime.rs:198-274 | With attempts that complete once, a record over a filed record is filed again |
| CompactionChain.ChainCovers | crates/autoharness-app/src/context_runtime.rs:198-274 | After any chain of calls the retained groups are a newest-first prefix of all groups that successful calls admitted, and the counts are theirs |
| CompactionSupply.CoversSuppliedIff | crates/autoharness-app/src/context_runtime.rs:198-242 | What a chain covers is every group ever supplied up to the final cutoff, as often as supplied, if and only if no such group came late, early or in a call that failed |
| CompactionSupply.ChainConserves | crates/autoharness-app/src/context_runtime.rs:198-274 | Then retained plus omitted equals compacted equals the number of groups ever supplied, and the retained ones are the newest of these |
| CompactionSupply.LateIsLost | crates/autoharness-app/src/context_runtime.rs:212-216 | A group that is not covered when the cutoff passes it never will be, whatever later calls supply |
| CompactionSupply.LateGroupIsMissing | crates/autoharness-app/src/context_runtime.rs:212-216 | Two successful calls after which a supplied group below the cutoff is missing |
| CompactionChain.ChainValidates | crates/autoharness-app/src/context_runtime.rs:552-580 | Every record that a chain leaves passes the validator |
| CompactionChain.ChainIsBatch | crates/autoharness-app/src/context_runtime.rs:198-274 | With one byte limit, compacting step by step gives the record of compacting everything at once, up to the chained hash |
| Engine.ExecuteKeeps | crates/autoharness-engine/src/aggregate.rs:396-902 | Every accepted command keeps: open calls belong to live attempts, turns are bound in order and within budget, no turn started twice |
| RecoveryCalls.CallsRunOnlyAllowed | crates/autoharness-engine/src/aggregate.rs:396-902 | In every run of commands, crashes, restarts and starts a call has run only after it was allowed, by the policy or by an answer to its question, and never after it was denied; it gets at most one decision and one answer |
| RecoveryTurns.TurnsAlternate | crates/autoharness-engine/src/aggregate.rs:396-902 | In every such run the commands an attempt accepts are in order: a budget before the start, every turn bound and then started, a pause and a resume between two turns, one command that settles and nothing after it; the status tells the last of them |
| RecoveryTurns.CancelledWasAsked | crates/autoharness-engine/src/aggregate.rs:396-902 | A cancelled attempt accepted a request to cancel and then only the cancellation |
| RecoveryWork.CancellationStopsWork | crates/autoharness-engine/src/aggregate.rs:396-902 | Once an attempt is asked to cancel or has settled, no continuation binds or starts a turn of it, proposes a call of it or starts one |
| RecoveryWork.StaleTurnNeverStarts | crates/autoharness-engine/src/aggregate.rs:396-902 | A bound turn starts next or never: once any other event has followed its binding, no continuation starts it or a later turn of the attempt |
| RecoveryWork.ResumedOverSettledCalls | crates/autoharness-engine/src/aggregate.rs:396-902 | An attempt resumes only when all its calls have settled, and what they came to stays in every continuation |
| RecoveryWork.CallsOnlyInFlight | crates/autoharness-engine/src/aggregate.rs:396-902 | A new call comes only from a command on an attempt in flight, under a new identity; no restart makes one |
| RecoveryWork.PausedHasCall | crates/autoharness-engine/src/aggregate.rs:396-902 | In every run an attempt that awaits tools has a call |
| RecoveryWork.EveryAttemptCanEnd | crates/autoharness-engine/src/aggregate.rs:396-902 | No attempt is stuck: from every consistent session some commands settle any attempt that has not settled, its open calls first |
| Recovery.LocalEngine.SettleCalls | crates/autoharness-app/src/engine_actor.rs:1401-1462 | The loop over the listed calls performs the specified repairs |
| Recovery.LocalEngine.SettleAttempts | crates/autoharness-app/src/engine_actor.rs:1463-1537 | The loop over the listed attempts performs the specified repairs and counts them |
| Recovery.LocalEngine.ReconcileInterrupted | crates/autoharness-app/src/engine_actor.rs:1393-1540 | The sweep over all sessions with its summed counters |
| Recovery.LocalEngine.StartRecoveredTurn | crates/autoharness-app/src/engine_actor.rs:1313-1342 | The start of the specification, which succeeds exactly as `RecoveryExact.StartsIff` says; otherwise every session is unchanged |
| RecoveryProofs.ReconcileSucceeds | crates/autoharness-app/src/engine_actor.rs:1393-1540 | No command of a pass is rejected; recovery starts no turn and changes only the status of attempts |
| RecoveryProofs.ReconcileResolves | crates/autoharness-app/src/engine_actor.rs:1463-1537 | After a pass every unsettled attempt awaits tools or is in flight with the exact pending context it had |
| RecoveryProofs.ReconcileRests | crates/autoharness-app/src/engine_actor.rs:1401-1462 | After a pass the only open calls wait for permission under an attempt that awaits tools |
| RecoveryProofs.ReconcileCallFates | crates/autoharness-app/src/engine_actor.rs:1401-1462 | A running call is completed if and only if the ledger shows its rebuilt proposal committed and never activated, and is unknown otherwise; what never started is denied or cancelled |
| RecoveryProposals.CommittedProposalCompletes | crates/autoharness-app/src/engine_actor.rs:1542-1593 | A proposal committed for review before the crash completes its call, whatever commands the ledger has seen since, while its text is retained |
| RecoveryProposals.CompletedIsNeverActive | crates/autoharness-app/src/engine_actor.rs:1542-1593 | A call completed by recovery has put exactly its draft into the ledger as a first revision, which is not active now or after any run |
| RecoveryProofs.ReconcileAttemptFates | crates/autoharness-app/src/engine_actor.rs:1463-1537 | An attempt that is not kept is unknown if a turn of it was dispatched and unanswered, and failed otherwise |
| RecoveryProofs.SecondPassSilentIff | crates/autoharness-app/src/engine_actor.rs:1251-1270 | A second pass issues no command if and only if the first did not keep an attempt in flight and then settle a later one |
| RecoveryProofs.OneUnsettledIsIdempotent | crates/autoharness-app/src/engine_actor.rs:1393-1540 | With at most one unsettled attempt a pass is idempotent and what it leaves in flight is exact in the state it leaves |
| RecoverySweep.SweepIsPointwise | crates/autoharness-app/src/engine_actor.rs:1393-1540 | A sweep over distinct sessions leaves each as its own pass would, up to and including the first that cannot be completed, and the others alone; it succeeds if and only if there is no such session |
| RecoverySweep.SweepSucceeds | crates/autoharness-app/src/engine_actor.rs:1393-1540 | Over consistent, readable sessions it succeeds and reconciles exactly the listed ones |
| RecoverySweep.SecondSweepSilentIff | crates/autoharness-app/src/engine_actor.rs:1357-1371 | A second sweep changes nothing if and only if the first disturbed no session |
| RecoverySweep.SweepIsIdempotent | crates/autoharness-app/src/engine_actor.rs:1357-1371 | With at most one unsettled attempt in each session the sweep is idempotent |
| RecoverySweep.SweepCounts | crates/autoharness-app/src/engine_actor.rs:1397-1540 | The two counters returned are the attempts, over all sessions, that the sweep turned to failed and to unknown |
| RecoveryProofs.DisturbedIsReachable | crates/autoharness-app/src/engine_actor.rs:1266-1268 | Four commands reach a session on which a second pass does issue a command |
| RecoveryProofs.RestartStartsNothing | crates/autoharness-app/src/engine_actor.rs:1393-1540 | Even over a damaged store a pass keeps the aggregate consistent and starts nothing |
| RecoveryProofs.TurnsStartOnce | crates/autoharness-engine/src/aggregate.rs:726-757 | In every run of commands, crashes, restarts and start requests each bound turn starts at most once |
| RecoveryProofs.StartRecoveredIff | crates/autoharness-app/src/engine_actor.rs:1313-1342 | A recovered start succeeds exactly for the loaded manifest and its request, and consumes that turn; when a manifest loads is `RecoveryExact.ExactIff` |
| RecoveryExact.ExactIff | crates/autoharness-app/src/engine_actor.rs:1251-1310 | A load answers with a manifest if and only if its turn was bound by the last event to a ready attempt, the stored manifest is the one bound with its own rows and prelude, and every admission's text is retained |
| RecoveryExact.BrokenIff | crates/autoharness-app/src/engine_actor.rs:1251-1310 | A load is refused if and only if a turn is due that is not stored, not the bound one, or disagrees with its rows |
| RecoveryExact.StartsIff | crates/autoharness-app/src/engine_actor.rs:1313-1342 | A recovered start succeeds if and only if it asks for the request of a stored manifest that was bound by the last event to the attempt, with its own session, run turn and hash, its own rows, a prelude exactly when there are admissions, and every admission's text |
| RecoveryExact.ErasedTextStopsStart | crates/autoharness-app/src/engine_actor.rs:1313-1342 | Erasing the text of one admission between binding and restart makes every start of the turn fail |
| RecoveryExact.OtherHashStopsStart | crates/autoharness-app/src/engine_actor.rs:1313-1342 | Another stored manifest hash does so too, and the load is refused |
| RecoveryExact.ErasedTextSettles | crates/autoharness-app/src/engine_actor.rs:1463-1537 | Erasing the text of one admission makes the next pass fail an attempt that it would have kept |
| RecoveryExact.KeptIff | crates/autoharness-app/src/engine_actor.rs:1463-1537 | A pass keeps an attempt in flight if and only if its context is exact, every call has settled or waits for permission, and no attempt before it has to be settled |
| RecoveryProofs.NeverRestarted | crates/autoharness-app/src/engine_actor.rs:1313-1342 | Once a turn has started no later request for it succeeds |
| Providers.TriesAreBounded | crates/autoharness-app/src/gui.rs:1915-1935 | Pigeonhole: the search tries at most as many taken identities as there are profiles |
| Providers.FallbackConnectionId | crates/autoharness-app/src/gui.rs:1915-1935 | The search ends at the first identity that no profile has, before its counter saturates |
| Providers.MapProviders | crates/autoharness-app/src/gui.rs:1713-1799 | At most 64 connections, all distinct, exactly one active: the first profiles in their order, as many as there is room for, with the active one in the last place when it comes later; without an active profile the session default with the first free identity; the list passes the validation of the snapshot |

## Left out

- Keyring and document writes are atomic: a failed keyring call has no effect, but for replacements in `VaultLate.dfy`, and a document replaced by rename is the old or the new one.
- ProfileRuns.ProfileManager.Run: what it says of the vault as a whole is for identities no two of which have colliding keys, since by `ProfileApart.RunsKeepIff` it is false of any others.
- Renderer behaviour beyond folding frames, channel buffering, timers and the shutdown timeout: they are arbitrary steps.
- BridgeBounds.QueuesStayBounded: the application sends nothing for a request after its terminal notice; without that promise the bound is not claimed.
- BridgeCarrier.NoticesFollowProjections: covers committed, rejected and shutdown notices; coalesced sign-in notices keep their old place and are excluded.
- Bridge: cancelling a sign-in only consumes a request identity, and secrets never enter the modelled state.
- Delta: transcript items, catalog, settings and memory are opaque values that are compared, copied and validated as a whole.
- Profiles: fields of a profile other than its credential link are one opaque value; name validation and file locking are not modelled.
- Planner.Validate: the canonical hash, secret patterns and instruction patterns are arbitrary functions of the text; evidence and relations other than contradictions are one opaque field.
- Ledger: the projection leaves out the lifecycle column, full-text search, evidence excerpts, generation counters, session erasure tombstones and the size limits on encoded operations; appending an identical batch again is recognised but the second check of its texts is not modelled.
- LedgerStore.StoreStaysIntact: one item; operation identities that other items own are not modelled.
- LedgerItem.AcceptedIff: identities owned by other items are given sets; disk and encoding failures are not modelled.
- Compaction: excerpts are built elsewhere; session and attempt identities are always well formed; the hash of omitted groups is its own pre-image.
- Engine: titles, models, prompts, text, usage and archiving are commands that only move the log; a session's sequence numbers do not run out.
- Recovery: building the proposal command and hashing a request are given results; several sessions are reconciled one after another over distinct identities, as the store lists them.
- Providers.FallbackConnectionId: fewer than 2^32 profiles, beyond which the counter saturates and the search need not end.
- Providers.MapProviders: labels, status, credential source and models of a connection are one opaque part, and identities that fail their own validation are not modelled.
- Profile import and export, telemetry, provider construction, environment parsing, the user interface, benchmarks and Markdown rendering: input, output and folds that would add only easy members.
