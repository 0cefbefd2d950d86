# relswap: a verified model

relswap installs signed releases of one program into a private directory, keeps every version it ever
installed, and selects one of them with a symbolic link (Unix) or a small `active` file (Windows). An
activation is a write-ahead protocol over files: stage a version, verify it, rename it into `versions/`,
write `pending-activation.json`, switch the selector, write `install.json`, remove the journal, synchronise
the directories. Any process may die anywhere; the next call recovers. The releases come as tar or ZIP
archives that are checked by hand-written readers before anything is extracted.

This project models that behaviour in Dafny and proves what it promises, for every history rather than for
one run. `dafny verify dfyconfig.toml` checks everything.

## How the model is laid out

**Activation and recovery on Unix.**
`ManagedState` is the disk and its atomic operations. `Plans` says what each lock-holding operation does to
the disk it finds: a sequence of operations and a result. `Installation` is the same code in its own form, a
class whose methods change the files step by step and may be stopped by the fault injector at every
boundary; its methods are proved to perform exactly those plans. `Consistency` holds the invariant and the
atomic register the protocol implements, `PlanSafety` that every prefix of every plan keeps the one and
refines the other. `Contention` is the machine of any number of processes that lock, step and die.
`VersionOrder`, `Operations` and `RecoveryLaws` hold what follows for whole runs, whole operations and
repeated recovery. `Durability` separates the visible disk from the durable one: until a directory is
synchronised, a power cut may keep or lose each of its entries. `Readiness` says for whole operations on any
medium exactly when they withstand that, `PowerCuts` for whole histories, and `LostRenames` holds the four
runs in which they do not.

**Windows.** `Launcher` is a second protocol machine, for the stable launcher, its marker in the staging
area and the ownership record in `install.json`.

**Archives.** `Bytes`, `Pax`, `MemberName` and `TarHeader` are the codecs (IEEE Std 1003.1, "pax Extended
Header" and "ustar Interchange Format"). `TarGrammar` is the block structure of a tar stream for any rules
about headers and data, `Tar` the rules of the inspection, `Limit` the bounded reader, `TarReader` the loop
over it, `TarWriter` a writer and the round trip. `Zip` is the check made before a ZIP archive is decoded and
`ZipAcceptance` exactly which files pass it (PKWARE APPNOTE.TXT, sections 4.3.12 and 4.3.16).

**The self-test and names.** `SelfTest` is the collection of a probe's output by two threads and a channel.
`Semver`, `Names` and `Selectors` are version text, archive names, the two selectors and the command path.

## What turned out to be false

Each is kept as the code has it, with a concrete disk or run and an exact condition.

- *Recovery is re-entrant.* A crash right after recovery removes the journal of an activation that had not
  switched the selector can lose the rest of its work: on a first installation no later recovery then sweeps the
  staging area, and on disks no run reaches `install.json` may be repaired by one call and not by the other.
  `RecoveryLaws.ReentrantExactly` says on exactly which disks no number of crashes is noticed,
  `RecoveryLaws.ReachableReentrancy` what that means for reachable disks, `Operations.NoticedCrash` is a run
  that gets there. From any disk two calls settle (`TwoCallsSettle`); `OneCallSettlesExactly` says when one
  does, `OneCallIsNotEnough` shows one that does not.
- *Write-ahead order survives power loss.* Only from a settled medium, and a process that dies between a rename
  and the `sync_dir` that follows it may leave one that is not: the next operation takes what it sees for
  durable. `Readiness.PlanExactly` says for every medium and every operation exactly when no power cut can break
  it, in terms of the lock file, the target's entry in `versions/`, install.json and the selector;
  `Readiness.SettledExactly` when that holds for whatever operation comes next. `PowerCuts.HistoriesExactly`
  joins them: call a history orderly if every process that dies leaves a settled medium; then every disk that
  any power cut leaves in any orderly history from a medium is good if and only if the medium is settled. So a
  death is harmless exactly if what it leaves is settled. The four ways to be unsettled are shown as runs from
  an empty root or a first installation: `LostRenames.SelectorWindow`, `VersionWindow`, `InstallWindow` and
  `LockFileWindow`, the last without any death at all.
- *A selector that was written can be read.* On Windows nothing on the writing side bounds the version's length,
  and both readers stop at 128 bytes: `Selectors.ActiveRoundTripExactly`, `LongVersionIsUnreadable`.
- *An interrupted first installation on Windows can always be recovered.* Recovery derives the launcher's
  ownership from the journal's target when `install.json` is missing, although the installed launcher came from
  an earlier release: `Launcher.RecoveryCanBeStuck` is the run, `Launcher.RecoverExactly` the condition
  (`Launcher.InstallLandsExactly` for the whole operation), and with one launcher for all releases it never
  happens (`Launcher.SharedLauncherRecovers`).
- *The byte limit is an end.* `DecompressedLimit` consumes the excess byte it reports; a reader that goes on is
  told that the stream ended if that byte was the last (`Limit.ReadPastAnError`). The tar loop stops at the
  first error.
- *An archive within the bounds passes the ZIP check.* The search comes from the back, so something behind the
  end record may decide first: an end record in place that asks for ZIP64, or that names a directory ending
  there which breaks a bound. `ZipAcceptance.AcceptedExactly` says that such an archive is refused exactly if
  there is one and nothing behind that decides; `AcceptedFilesExactly` says so of all files. `CommentCanForbid`
  is a comment of 22 bytes that forbids every archive, and `ShortCommentIsHarmless` says that no shorter one
  forbids any, whatever signatures it contains.

## Model

| member | source | states |
|---|---|---|
| `Consistency.CommitSafe` | src/install/activation.rs:617-643 | The commit sequence keeps the protocol invariant at every prefix; its only register effect is one switch, and it ends with selector and document agreeing |
| `Consistency.CleanupSafe` | src/install/recovery.rs:203-256 | Sweeping the staging area is invisible to the register at every prefix |
| `PlanSafety.RecoverSafe` | src/install/recovery.rs:53-179 | Recovery of a good disk is never refused, keeps the invariant at every prefix, leaves the register as it is and no journal |
| `PlanSafety.DownloadSafe` | src/install/activation.rs:400-566 | Activating a download, from any good disk, with anything written into the transaction and any verdict of verification and self-test, keeps the invariant at every prefix and refines the register |
| `PlanSafety.RetainedSafe` | src/install/activation.rs:575-602 | The same for activating a retained version, which on success leaves exactly the committed disk |
| `PlanSafety.VerifiedIsReleased` | src/install/activation.rs:525 | Whatever extraction writes, exactly the release with the chosen id passes the verification before the rename |
| `PlanSafety.ChooseIdSound` | src/install/activation.rs:1113-1159 | The chosen installation id is the one all retained versions and install.json already carry, whichever of its sources it comes from |
| `Contention.StepKeeps` | src/install/activation.rs:375-398 | Every event of any number of processes, locking on any reachable disk, one step, unlocking or dying, keeps the invariant and leaves a plan that may again be cut anywhere |
| `Contention.RunsRefineRegister` | src/install/activation.rs:604-649 | Every history of crashing, competing processes is a run of an atomic register whose only commit point is the switch of the selector |
| `Contention.ReachableDisks` | src/install/activation.rs:984-1080 | Whatever extraction writes, in every reachable state a journal record names the selected version, the selector names a retained, fully verified version with its released bytes, all ids agree, and a foreign command is untouched |
| `Contention.RetainedOnlyGrow` | src/fs/executable.rs:677-781 | Retained versions are never removed or changed in any history |
| `Contention.RecoveryStatesTheRegister` | src/install/recovery.rs:12-46 | One complete recovery of any reachable disk with a selector leaves no journal, an empty staging area and an install.json stating exactly the register's active and previous versions |
| `Contention.StaleJournal` | src/install/activation.rs:1177-1200 | In the gap between recovery and locking a stale record, of a first installation too, is either overwritten, or the mutator is refused because install.json no longer describes the selector |
| `Contention.ForeignStays` | src/install/activation.rs:1161-1182 | A command this engine did not create survives every history |
| `Operations.InstallConverges` | src/install/activation.rs:245-251 | After any history one undisturbed install of a version not below the selected one succeeds, reusing what a dead attempt renamed, and ends with selector, document, no journal, empty staging |
| `Operations.RollbackOnlyOnce` | src/install/activation.rs:313-326 | A successful rollback strictly lowers the version, and a second one directly after it is refused |
| `Operations.UpdateLands` | src/install/activation.rs:284-304 | A successful update selects the latest release, reports a change exactly when it made one, and records what it replaced |
| `Operations.RecoverySettles` | src/install/recovery.rs:12-46 | What a recovery before an operation leaves: a good, described disk with the same selector and versions |
| `Operations.NoticedCrash` | src/install/recovery.rs:99-122 | For every release: its first installation dies after the journal record, recovery dies after removing it, and the next recovery leaves the transaction where it is |
| `VersionOrder.DownloadsNeverLower` | src/install/activation.rs:434-462 | Histories without rollbacks never lower the selected version, whatever crashes and races they contain |
| `VersionOrder.RollbacksAreBounded` | src/install/activation.rs:584-588 | Racing rollbacks, with targets read before locking, switch strictly downwards, so no more often than there are retained versions below the start |
| `VersionOrder.UndescribedIsRefused` | src/install/activation.rs:1187-1196 | A selected version without install.json is never replaced |
| `RecoveryLaws.FinalIsComplete` | src/install/recovery.rs:53-179 | The closed form of a recovery is what it does, on any disk; it never moves the selector or touches a version, and a refusal changes nothing |
| `RecoveryLaws.CrashesResume` | src/install/recovery.rs:61-122 | On the stated disks any number of crashes inside recovery is unnoticed by the next complete one |
| `RecoveryLaws.ReentrantExactly` | src/install/recovery.rs:53-179 | Any number of crashes inside recovery followed by a complete one equals one complete recovery on exactly the stated disks |
| `RecoveryLaws.DeathAfterDiscard` | src/install/recovery.rs:99-106 | On every other disk one death right after the journal's removal is noticed |
| `RecoveryLaws.ReachableReentrancy` | src/install/recovery.rs:99-122 | On reachable disks only leftovers of a first installation can outlive such a crash |
| `RecoveryLaws.TwoCallsSettle` | src/install/recovery.rs:53-179 | From any disk whatever, two successful calls reach a fixed point and neither changes the selector |
| `RecoveryLaws.OneCallSettlesExactly` | src/install/recovery.rs:140-178 | One call reaches the fixed point exactly unless it discards a journal and leaves a document to repair |
| `RecoveryLaws.OneCallIsNotEnough` | src/install/recovery.rs:99-106 | A concrete disk on which the branch that only discards the journal leaves install.json to a second call |
| `Durability.RecoveryExactly` | src/install/recovery.rs:53-179 | From any medium whose survivors are good, recovery withstands a power cut at every point exactly when there is no journal record or the selector is durable |
| `Durability.ActivateExactly` | src/install/activation.rs:604-649 | From any such medium, a commit withstands power cuts everywhere exactly when lock file, target, the document's name of the selector and the selector are durable before it, and then leaves everything durable |
| `Durability.StageWithstands` | src/install/activation.rs:511-537 | Staging and renaming a verified version withstand every power cut, whatever else waits for its directory, and end with the rename durable |
| `Readiness.PlanExactly` | src/install/activation.rs:375-602 | Every operation on every medium withstands power cuts everywhere exactly when what its journal record relies on is durable before it starts; then it ends with everything durable or nothing more at risk |
| `Readiness.SettledExactly` | src/install/recovery.rs:84-106 | A condition on the medium alone that holds exactly when every operation that may be requested next withstands every power cut |
| `Readiness.EndsSettled` | src/install/mod.rs:526-537 | A completed operation leaves a settled medium settled |
| `PowerCuts.HistoriesExactly` | src/install/activation.rs:604-649 | Every disk that any power cut leaves in any orderly history from a medium is good exactly when the medium is settled |
| `PowerCuts.CarefulIsOrderly` | src/install/mod.rs:526-537 | A history in which no process dies while a rename waits for its directory is orderly |
| `PowerCuts.WriteAheadSurvives` | src/install/journal.rs:14-40 | In those histories a durable selector ahead of install.json is covered by a durable journal record, and install.json is never ahead of the selector uncovered |
| `PowerCuts.ReappearingJournal` | src/install/journal.rs:21-33 | At rest a power cut never moves the selector; if only journal records wait for their directory it leaves the register as it was and recovers to the same install.json |
| `LostRenames.SelectorWindow` | src/fs/executable.rs:613-649 | For every first installation: it dies before the selector's directory is synchronised, a recovery runs, and a power cut leaves install.json without selector or journal; no later call succeeds |
| `LostRenames.VersionWindow` | src/fs/executable.rs:677-781 | For every first installation: it dies before `versions/` is synchronised, the next one reuses the directory, and a power cut leaves a selector that names nothing |
| `LostRenames.InstallWindow` | src/install/journal.rs:35-40 | For every three versions: an update dies before install.json is durable, the next one replaces the journal record, and a power cut brings the old install.json back; the repair forgets the previous version |
| `LostRenames.LockFileWindow` | src/install/mod.rs:406-452 | For every first installation of all: the journal record may survive without the lock file, and is then refused for ever |
| `Installation.Installation.RecoverLocked` | src/install/recovery.rs:53-179 | The step-by-step recovery performs exactly its plan, or stops at the first failing boundary with everything before it done |
| `Installation.Installation.RecoverIfManaged` | src/install/recovery.rs:12-46 | The unlocked evidence and then the locked recovery perform exactly their plan |
| `Installation.Installation.CleanupStaging` | src/install/recovery.rs:203-256 | The loop removes every transaction and then synchronises the directory |
| `Installation.Installation.ChooseInstallationId` | src/install/activation.rs:1113-1159 | The loop over retained versions finds the id the specification names, or refuses a mixture |
| `Installation.Installation.ActivatePointerAndState` | src/install/activation.rs:604-649 | The commit performs exactly its plan, boundary by boundary |
| `Installation.Installation.StageVersion` | src/install/activation.rs:511-537 | Writing, verifying, synchronising and renaming perform exactly their plan; what does not verify is refused before it is made durable |
| `Installation.Installation.ActivateDownloadLocked` | src/install/activation.rs:400-566 | The whole locked installation performs exactly its plan |
| `Installation.Installation.ActivateExistingLocked` | src/install/activation.rs:575-602 | The locked rollback performs exactly its plan |
| `Installation.Installation.InstallVersion` | src/install/activation.rs:245-251 | Recovery, the unlocked ownership check and the locked installation leave what the functional operation says, or stop at a boundary on a good disk |
| `Installation.Installation.Update` | src/install/activation.rs:284-304 | The same for an update |
| `Installation.Installation.Rollback` | src/install/activation.rs:313-326 | The same for a rollback to the previous version |
| `Installation.Installation.RollbackTo` | src/install/activation.rs:335-344 | The same for a rollback to a named version |
| `Launcher.LauncherAlwaysAccounted` | src/install/activation.rs:892-921 | In every reachable state an engine-made launcher is accounted for by a marker with its digest, a retained version with it, or install.json |
| `Launcher.PlanSafe` | src/install/activation.rs:400-602 | Every locked operation may be cut anywhere without losing that account or the consistency of selector, journal and document |
| `Launcher.CleanupIsJustified` | src/install/recovery.rs:215-251 | On any disk cleanup removes a launcher only on a digest match, with its marker still in place, with no retained version holding the digest and nothing active or recorded |
| `Launcher.CleanupSafe` | src/install/recovery.rs:203-256 | Cleanup of a reachable disk succeeds, empties the staging area and at most removes the orphaned launcher |
| `Launcher.Layout.CleanupStaging` | src/install/recovery.rs:213-255 | The loop does exactly what its recursive specification says, including where it gives up |
| `Launcher.RecoverExactly` | src/install/activation.rs:1224-1254 | Recovery of a reachable disk succeeds exactly when it is not stuck between two launchers |
| `Launcher.RecoveryCanBeStuck` | src/install/recovery.rs:78-83 | The concrete run of two dying installs with different launchers after which recovery fails |
| `Launcher.InstallLandsExactly` | src/install/activation.rs:375-398 | On a reachable disk the public installation, its recoveries and its unlocked proof of ownership included, succeeds and lands exactly when recovery is not stuck |
| `Launcher.SharedLauncherRecovers` | src/install/recovery.rs:78-83 | When releases share one launcher, recovery always succeeds and a following public installation lands, after any history |
| `Launcher.RecoverLeaves` | src/install/recovery.rs:61-122 | A recovery completes the document of an executed activation with the journal's versions, leaves every other document and all versions as they were, and nothing pending |
| `Launcher.RollbackLands` | src/install/activation.rs:575-602 | A rollback switches to a strictly lower retained version and keeps the recorded launcher |
| `Launcher.ForeignFileStays` | src/install/activation.rs:906-917 | Another program's file at the command path is never touched and nothing is installed beside it |
| `Launcher.DownloadSafe` | src/install/activation.rs:400-566 | An installation is safe at every prefix, succeeds on every recovered disk for a version not below the selector, and lands |
| `Bytes.DecimalRoundTrip` | src/release/archive.rs:755-763 | Printing and parsing a number is the identity exactly for 64-bit numbers |
| `Pax.PaxOverrides` | src/release/archive.rs:742-796 | The cursor loop computes the recursive meaning of an extended header, errors included |
| `Pax.ParseComposes` | src/release/archive.rs:742-796 | Parsing a concatenation is parsing the parts and combining them, later over earlier |
| `Pax.GlobalHeadersConcatenate` | src/release/archive.rs:731-740 | Successive global headers act as one header holding their concatenation |
| `Pax.OwnedPaxOverrides.Update` | src/release/archive.rs:731-740 | The in-place update replaces exactly the fields that are set, with a cancellation for an empty value |
| `Pax.EncodeRecord` | src/release/archive.rs:1246-1256 | The writer's loop ends, at the least length from its start that counts itself |
| `Pax.LastSettingWins` | src/release/archive.rs:742-796 | Parsing what the writer concatenates gives the last setting of each key |
| `MemberName.AcceptedUnderRoot` | src/release/archive.rs:605-647 | Every accepted name is the root or lies under it by plain components |
| `TarHeader.ChecksumFitsSixDigits` | src/release/archive.rs:663-686 | The checksum of any block is at most 504*255 + 8*32 and fits six octal digits |
| `TarHeader.ZeroBlockHasNoChecksum` | src/release/archive.rs:216-221 | The end marker is never a valid header |
| `TarHeader.WriteChecksum` | src/release/archive.rs:663-686 | A written header passes the checksum test |
| `TarHeader.WriteNumbers` | src/release/archive.rs:254-256 | Size and mode of a written header read back |
| `TarHeader.WriteNames` | src/release/archive.rs:299-305 | Path and type of a written header read back |
| `TarGrammar.WalkAcceptsExactly` | src/release/archive.rs:212-408 | The walk accepts exactly the streams that are whole records followed by zeros, with nothing pending |
| `TarGrammar.WalkIsLayout` | src/release/archive.rs:216-246 | Success means the whole stream is its records and a zero trailer |
| `TarGrammar.EntriesOfLayout` | src/release/archive.rs:212-408 | A laid-out stream is taken apart into the records it was made of |
| `Tar.StepAdds` | src/release/archive.rs:285-408 | One record books exactly one member with a new name under the root, or is metadata and books none |
| `Tar.FoldIsSound` | src/release/archive.rs:305-345 | Over all records names stay distinct and under the root, sizes within the total, and the payload is that of the member at its path |
| `Tar.InspectedArchive` | src/release/archive.rs:190-416 | An accepted archive is exactly its records and zeros, has at most 4096 records, distinct names under the root, at most 256 MiB, and the result is the data of the unique member at the manifest's path |
| `Limit.DecompressedLimit.Read` | src/release/archive.rs:925-946 | A read hands on the next bytes, reports a clean end only at the stream's end, and an error only if the stream is damaged or longer than the limit |
| `Limit.DecompressedLimit.ReadExact` | src/release/archive.rs:214-217 | A buffer is filled exactly when that many bytes can be delivered |
| `Limit.DecompressedLimit.Drain` | src/release/archive.rs:911-946 | Over any sequence of reads the bytes are a prefix within the limit; a clean end means the whole stream, an error that it is damaged or too long |
| `Limit.ReadPastAnError` | src/release/archive.rs:930-939 | For every sound stream beyond every limit, reads deliver exactly the limit and then fail, and the read after the failure reports a clean end exactly when the excess was one byte |
| `TarReader.ReadMemberData` | src/release/archive.rs:541-577 | The chunk loop succeeds exactly when the declared bytes can be delivered, and returns them when asked to |
| `TarReader.ReadTarRecord` | src/release/archive.rs:688-713 | Data and zero padding are taken exactly, or the record is refused |
| `TarReader.TarInspection.Run` | src/release/archive.rs:212-408 | The loop with its mutable state computes the recursive walk; at its head the bytes consumed are whole records and a multiple of 512 |
| `TarReader.InspectTar` | src/release/archive.rs:190-416 | Inspecting through the bounded reader is the inspection of the stream if it ends cleanly within 288 MiB, and an error otherwise |
| `TarReader.InspectedArchivesFit` | src/release/mod.rs:39-53 | An archive that passes, with at most 28 MiB of metadata and end-marker zeros, never trips the 288 MiB limit |
| `TarWriter.ReadyResolves` | src/release/archive.rs:284-304 | Long name over local PAX over global PAX over header, with an empty local value cancelling the global one |
| `TarWriter.MetadataRecord` | src/release/archive.rs:257-290 | A metadata record as written is read as that record, whatever state it meets |
| `TarWriter.MemberRecord` | src/release/archive.rs:291-345 | A member as written is read as the member its fields resolve to in that state |
| `TarWriter.MetadataReadExactly` | src/release/archive.rs:257-290 | A list of global and local PAX headers, long names and long links in front of a member, in any order, is taken exactly if only global headers repeat |
| `TarWriter.RoundTrip` | src/release/archive.rs:190-416 | Every list of members within the limits, each written after any list of global and local PAX headers, long names and long links in which only global headers repeat, is inspected as the same members and payload |
| `TarWriter.SmallArchiveFits` | src/release/archive.rs:1079-1116 | A root directory and one executable file are within the limits and are read back |
| `Zip.ZipCentralMemberCount` | src/release/archive.rs:863-909 | The walk computes the recursive tiling of the central directory with its bounds |
| `Zip.PreflightZipMemberCount` | src/release/archive.rs:798-861 | The backward search computes the recursive search |
| `Zip.AcceptedIsAnArchive` | src/release/archive.rs:798-909 | An accepted file is prefix, directory, end record and comment as the standard writes them, tiled exactly by at most 4096 bounded headers and not marked ZIP64 |
| `ZipAcceptance.JudgedExactly` | src/release/archive.rs:812-855 | What the search makes of a position, said without the walk: it accepts an end record in place whose directory is exactly its headers within the bounds, and refuses one that asks for ZIP64 or whose directory breaks a bound |
| `ZipAcceptance.AcceptedExactly` | src/release/archive.rs:798-909 | Every written archive within the bounds and not marked ZIP64 is accepted exactly unless something behind its end record refuses and nothing behind that decides |
| `ZipAcceptance.AcceptedFilesExactly` | src/release/archive.rs:798-909 | A file is accepted exactly if it can be read as such an archive that is not overruled |
| `ZipAcceptance.SoleRecordExactly` | src/release/archive.rs:798-909 | A written archive with no other end record in place, whatever signatures it contains, is accepted exactly when it meets the bounds and is not marked ZIP64 |
| `ZipAcceptance.ShortCommentIsHarmless` | src/release/archive.rs:812-818 | No comment of fewer than 22 bytes causes the refusal of an archive within the bounds |
| `ZipAcceptance.CommentCanForbid` | src/release/archive.rs:803-838 | An archive whose comment is an end record asking for ZIP64 is refused, whatever its directory |
| `SelfTest.BoundedAndComplete` | src/install/activation.rs:737-784 | In every interleaving the counter is the sum of the reservations and at most 1 MiB, a refusal means too much output, and a normal finish means both buffers are the complete streams |
| `SelfTest.CollectOutput` | src/install/activation.rs:733-793 | The collection loop, over any schedule of reader steps, exits and delays, returns output only after a successful exit, and then all of it, within 1 MiB |
| `SelfTest.StepKeeps` | src/install/activation.rs:50-80 | Every atomic step of readers, channel and collector keeps the budget and the order of what each reader sent |
| `SelfTest.OutputSize.ReserveOutput` | src/install/activation.rs:29-48 | Under any interference and spurious failures the loop adds exactly its own reservation, or refuses one that would not fit |
| `Semver.CanonicalExactly` | src/install/mod.rs:868-876 | Text parses as canonical exactly when it is a valid version's print, and then as that version |
| `Names.ArchiveNameInjective` | src/release/target.rs:98-105 | Two archive names are equal exactly when version and target are |
| `Names.TargetFromAssetExactly` | src/release/archive.rs:999-1021 | A target is found exactly for the archive names of that target, and the extracted version rebuilds the name |
| `Names.PayloadPathCarriesVersion` | src/release/archive.rs:979-997 | The payload's path gives back the version |
| `Selectors.ReadSymlinkExactly` | src/install/mod.rs:335-350 | A link reads as a version exactly when it is absolute and its parts are that version's payload path |
| `Selectors.SymlinkRoundTrip` | src/install/activation.rs:797-809 | What the switch writes is what the reader reads |
| `Selectors.ActiveRoundTripExactly` | src/install/mod.rs:353-379 | The `active` file is read back exactly when the version is at most 128 bytes long |
| `Selectors.LongVersionIsUnreadable` | src/install/mod.rs:369 | A valid version whose selector nobody can read |
| `Selectors.LauncherAgrees` | src/fs/executable.rs:35-92 | For any content, manager and launcher take it for the same version's payload or not at all |
| `Selectors.LauncherStartsTheActive` | src/fs/executable.rs:35-92 | The launcher resolves a payload only for a version the manager reads |
| `Selectors.LexicalNormalize` | src/install/mod.rs:628-642 | The loop computes the left fold over the components |
| `Selectors.NameThenParentCancels` | src/install/mod.rs:628-642 | `.` and `name/..` can be dropped anywhere without changing the result |
| `Selectors.CommandNeverOverlaps` | src/install/mod.rs:644-668 | Without a launcher a command path is accepted exactly when its subtree meets no internal path, for any folding of names |
| `Selectors.LauncherCommandPath` | src/install/mod.rs:669-717 | With a launcher it lies directly in `bin` and still meets no internal path |

## Left out

- Network, TLS, signatures, digests, gzip, JSON and the `zip` and `semver` crates' internals: a release is a
  fixed map from version to signed bytes; documents are records whose schema and identifier checks are one
  boolean (`fieldsOk`), and every check on a version directory is one boolean (`intact`).
- Unlocked reads before locking: any process may make any request at any time, which covers every value such
  a read could have returned.
- Versions inside the activation protocol are integers, since it uses only equality and order; their text is
  in `Semver`. Precedence of pre-releases is not modelled.
- PowerCuts.WriteAheadSurvives: starts from a settled medium and lets processes die only on settled media, because
  the statement is false otherwise; `PowerCuts.HistoriesExactly` is the equivalence. The private root, `versions/`
  and the command's directory are taken as durable from the start, and of a command that is not ours nothing is
  assumed but that it is durable.
- RecoveryLaws.CrashesResume: is about disks on which every step resumes to the same end, because re-entrancy
  is false on the others.
- Launcher.PlanSafe: keeps of a version directory only its launcher digest; its other contents, ids and
  document validation are those of the Unix model, and running Windows ACL and reparse checks is not modelled.
- Limit.DecompressedLimit.Read: a damaged compressed stream is one that ends in an error after some bytes.
- SelfTest.OutputSize.ReserveOutput: interference lasts for a finite schedule, because the loop of the source
  is lock-free but not wait-free.
- TarWriter.RoundTrip: writes no global header after the last member; the writer leaves owner, time, link and device
  fields zero and writes ustar headers; header codecs follow the standard, so a size in base-256 or white space
  outside ASCII in a number, which the `tar` crate also reads, is refused by this model.
- Selectors.LauncherAgrees: white space outside ASCII is not trimmed; text that contains it never parses.
- The extraction of a ZIP archive after the check, the per-member checks of `inspect_zip`, and writing members
  to disk: they would repeat the member rules already proved for tar.
- Non-directory entries in `versions/` and `.staging/`, private-directory enforcement and symlink races.
- Wall-clock time: a time-out is a step that may happen at any moment.
- The command-line tool, self-test process containment and the Windows launcher's process handling.
