# Verified models of the NMBL boot and transport protocols

NMBL boots signed NixOS generations. This project models, in Dafny, the parts of
it that must survive power cuts, hostile input or odd chunking, and proves what
they promise:

- **Boot sets** (`Manifest`, `BootBundle`, `BootAcceptance`, `BootProducer`,
  `BootFiles`, `BootInstall`, `BootRuns`, `BootAnswers`, `Mirrors`, `BootDelivery`,
  `BootExamples`): the A/B boot-set installer, what its callers can tell from its
  answers, its producer, and the two together from the source directory to the slot.
  Every file-system call is a step that can fail; a power cut is a failing call after
  which all later calls fail. File data, directory entries and
  selector renames become durable only by their own syncs, and a power cut may keep
  or lose each unsynced entry independently. The disk has a block budget. A root can
  also be told to fail at one step only, which gives particular runs of the code.
- **Generations** (`GenerationLinks`, `GenerationRoots`, `GenerationExamples`): the
  links `active`, `attempted`, `pending`, `tested`, `previous` and the rollback
  event, updated by booting, marking success and activating, with a ghost history,
  and the installed generations with their own durability.
- **Bundle stream** (`BundleStream`, `BundleAcceptance`, `BundleFault`): header lines
  and payload framing; which streams are accepted, and why the others are not.
- **Transcript** (`Transcript`, `TranscriptText`, with `Utf8`, `Lines` and `Numerals`):
  bounded reading, splitting into characters and stray bytes, escaping and truncation
  of boot logs.
- **Serial reader** (`SerialReader`): the line splitter with idle flushes.
- **State slots** (`CborSlot`, `CborGrammar`, `CborFault`): the decoder for a subset of
  section 3 of RFC 8949, the grammar it accepts, and its errors.
- **Needle scan** (`NeedleScan`): the chunked substring search.
- **Resolver hook** (`ResolverText`, `ResolverHook`, `ResolverRequest`): the rescue
  DHCP hook, its resolv.conf, and one request from its variables to the file.

Code that changes state is a class or a method with a loop, proved against
functions and relations; the theorems about whole runs are lemmas about those, or
methods that drive the class. What a run answers is also said without those
functions: from the bytes of the selector, the link texts, the header lines and the
sizes, with names, limits and character ranges written out. `dafny verify dfyconfig.toml` checks everything.

## Findings

1. *A failed final sync leaves a disputed selector.* When an install has renamed the
   selector over an older one and the directory sync after it fails, the old selector
   can still come back at a power cut. A repeat of the install answers Unchanged and
   settles nothing. The next install rewrites the slot which the old value names; if
   power is lost then, the machine can come up with a selector naming a destroyed
   slot, although `docs/boot-set-updates.md` says the selector cannot point at a
   mixture (`FailedSyncThenInstallLosesTheSelectedSlot`, call by call).
   - Every power cut of a whole sequence boots if and only if no install takes its
     target apart while the selector is disputed (`EveryCrashBootsIff`). Before an
     install, the free space, the set's size and the two entries decide: an install
     that touches its target can then be stopped so that some cut does not boot
     (`DisputedInstallLosesSlot`), one that does not touch it cannot
     (`UntouchingInstallIsSafe`, `CautionIsEnough`).
   - The failing step decides exactly whether the selector is disputed
     (`UnsettledMeansDisputed`), but the program prints a message, and steps share
     messages: the three directory syncs one, and the metadata files of the stage all
     theirs with the selector's temporary file. `Judge` is a test on the message and
     the directory as read before and after; what it says is true of every run, and it
     stays open only after a metadata message over a target that held the set before
     (`WhatIsJudgedIsTrue`, `ClearViewsTellAll`); acting on it is enough
     (`PrudenceIsEnough`). No test is exact: two runs with the same messages and the
     same readings end with the selector disputed in one and settled in the other
     (`SameViewBothWays`, `SameViewsOfTwoRuns`).
2. *Preflight does not count the selector's own block.* The documentation says a
   request that does not fit fails before any change. That is so when the set does
   not fit; but activation also needs one block for the temporary selector, and a set
   that fits without that block is staged and published and then not selected.
   `Install` states exactly which set ends how, and `ExactRoomIsPublishedButNotSelected`
   exhibits a set that ends so. With an entry in the way that is no directory, the old
   set can even be given up before the request is refused (`OddStageCostsTheTarget`).
3. *A stage left behind can block every repeat.* Preflight runs before the stale
   stage is removed. When the old set is gone and a complete stage is left, the set
   must fit a second time (`LeftoverStageNeedsRoomTwice`), or every repeat fails for
   space without changing anything (`LeftoverStageBlocksEveryRepeat`).
4. *A generation can be active and gone.* The renaming of a received generation is
   followed by a sync; when that fails the generation is visible, and receiving it
   again neither renames nor syncs. If no other generation is active, activating it
   renames the active link before anything is synced, and a power cut then can keep
   the link and lose the generation (`ActivatedThenLost`). An activation is sound at
   every cut when the generation is durable or another active link is kept first,
   and without that it can break (`Activate`, `UnanchoredActivationBreaks`).
5. *The two duplicate-name checks of the manifest never decide anything*: distinct
   roles already have distinct names (`ValidateShape`).
6. *A truncated log entry never determines its line*: a different line that ends in
   the text of the marker has the same entry (`TruncatedEntryIsAmbiguous`). An entry
   within its bound determines its line if and only if it is not a truncated line's
   (`DeterminedIffNotTruncated`); with the production limits every entry of at most
   4082 bytes does (`ShortEntryDeterminesItsLine`).
7. *An entry without a protocol can be ignored*: an interface named like an
   unfinished file (`a.nmbl-tmp`) yields an entry that the union skips. With a
   protocol this cannot happen. `AfterRun` records an entry exactly when its key
   does not end in that suffix.
8. *A set id identifies its set.* It hashes names and digests with nothing between
   them; the text can still be read back from its end, so distinct sets never hash the
   same text (`IdentityIsInjective`, `SetIdIdentifiesSet`).
9. *The scan's answer covers what reads delivered*: a read error ends the scan as
   if the file ended there.

## Model

| member | source | states |
|---|---|---|
| `BootInstalls.BootRoot.Install` | sirati-nmbl/nmbl-init-rs/nmbl-boot-update/src/transaction.rs:23-73 | Wherever an install stops, what is on disk is what its result says, told by the failing step: untouched; only the inactive slot and its stage changed, the selector untouched; or the set published and the selector old and settled, new with the old one still possible (exactly after a failed final sync), or new and settled. Without faults it activates if and only if the stated conditions hold. An answer Unchanged means, of the directory itself: the selector names that slot, the slot is a directory with a valid set, and its manifest has the bundle's bytes. Without faults the refusals and Unchanged are given exactly when the selector's bytes and the manifests call for them, a bundle with another manifest for the selected slot being refused for its slot with nothing changed. A bundle aimed at the inactive slot has one fate and no other answer than the step that failed: refused for space when not even the old set makes room, and nothing changes; refused for an entry that is no directory; published and not selected when there is no block for the selector; activated. The target is left alone unless there is room for the set and its stage can be made. No step is left out: with every call of one necessary step failing, nothing is published or activated. A run that is to stop after some members does so exactly when there are more. |
| `BootInstalls.RunningHasSet` | sirati-nmbl/nmbl-init-rs/nmbl-boot-update/src/transaction.rs:38-49 | What the Unchanged check recognises, from the bytes: the selector names a slot that is a directory with a valid set, and the two manifest files are equal. |
| `BootInstalls.SameManifestSamePayloads` | sirati-nmbl/nmbl-init-rs/nmbl-boot-update/src/transaction.rs:38-49 | With a digest that tells contents apart, two valid sets with equal manifest bytes have the same payloads, so answering Unchanged drops nothing. |
| `BootInstalls.FateOfActivation` | sirati-nmbl/nmbl-init-rs/nmbl-boot-update/src/transaction.rs:54-73 | From the space after preparing and the outcome of the activation to the fate of the bundle. |
| `BootInstalls.BootRoot.Decide` | sirati-nmbl/nmbl-init-rs/nmbl-boot-update/src/transaction.rs:31-53 | Everything decided before the first write: unchanged, one of the refusals with its cause, a failed read, or a validated bundle aimed at the inactive slot; nothing is written. Without faults there is an early answer exactly when the bundle is invalid, the selector names no slot, a valid set with the same manifest bytes is selected, or the bundle is for the other slot, in this order. |
| `BootInstalls.BootRoot.Preflight` | sirati-nmbl/nmbl-init-rs/nmbl-boot-update/src/transaction.rs:75-94 | The set fits beside the old one, and nothing is touched; not even the old one makes room, and nothing is touched; or the old one is given up and then the set fits. Anything else names a failed call or an entry that is no directory. |
| `BootInstalls.BootRoot.AllocatedTree` | sirati-nmbl/nmbl-init-rs/nmbl-boot-update/src/transaction.rs:192-208 | The saturating sum over a directory is the block total of its files, capped at the largest 64-bit number. |
| `BootInstalls.BootRoot.RemoveConfined` | sirati-nmbl/nmbl-init-rs/nmbl-boot-update/src/transaction.rs:210-219 | Removes a plain directory, accepts an absent one, refuses anything else, and touches no other entry; a stop leaves the entry as it was or no longer whole on disk. |
| `BootInstalls.BootRoot.WriteNew` | sirati-nmbl/nmbl-init-rs/nmbl-boot-update/src/transaction.rs:137-166 | Creating a file fails without faults exactly when the name is taken or the bytes do not fit; a stop leaves at most a partial unsynced file under that name. |
| `BootInstalls.BootRoot.StageBundle` | sirati-nmbl/nmbl-init-rs/nmbl-boot-update/src/transaction.rs:96-135 | The empty stage becomes exactly the metadata and every member with its signature, all synced, and takes exactly the validated total; a run that is to stop after some members stops there exactly when there are more. |
| `BootInstalls.BootRoot.FillStage` | sirati-nmbl/nmbl-init-rs/nmbl-boot-update/src/transaction.rs:56-68 | After staging the directory is synced and re-validated, neither of which can be left out; a staging error removes it as far as that works. |
| `BootInstalls.BootRoot.PrepareStage` | sirati-nmbl/nmbl-init-rs/nmbl-boot-update/src/transaction.rs:54-68 | Only the inactive slot and its stage change; success leaves the complete, synced, re-validated stage, and the blocks add up; otherwise the answer is the refusal that the space and the entries call for, or a step that failed; the target is as it was or, where room was short, gone. |
| `BootInstalls.BootRoot.PublishSlot` | sirati-nmbl/nmbl-init-rs/nmbl-boot-update/src/transaction.rs:69-71 | The stage takes the place of the old inactive slot durably and returns the blocks of the old one; any failure leaves the selector and the other slot as they were, and a failed renaming leaves the target empty beside the complete stage. |
| `BootInstalls.BootRoot.WriteSelector` | sirati-nmbl/nmbl-init-rs/nmbl-boot-update/src/transaction.rs:182-190 | The selector is old and settled, new and settled, or new with the old one possible, told by the error; it fails for space exactly when one block is missing. |
| `BootInstalls.BootRoot.Activate` | sirati-nmbl/nmbl-init-rs/nmbl-boot-update/src/transaction.rs:69-72 | From a complete stage to what the result says, with the exact block the temporary selector needs. |
| `BootFiles.SafeMeansEveryCrashBoots` | sirati-nmbl/nmbl-init-rs/nmbl-boot-update/src/transaction.rs:36-73 | The invariant kept by every run is equivalent to: every power cut leaves no selector, or one that names a complete valid set. |
| `BootFiles.UnbackedCrash` | sirati-nmbl/nmbl-init-rs/nmbl-boot-update/src/transaction.rs:182-190 | If some possible selector value lacks a complete durable slot, there is a power cut after which the selected slot does not boot. |
| `BootInstalls.EndedAfterStaging` | sirati-nmbl/nmbl-init-rs/nmbl-boot-update/src/transaction.rs:54-73 | Staging followed by activation leaves what the result says relative to the start of the install. |
| `BootRuns.CrashKeepsSafe` | sirati-nmbl/nmbl-init-rs/nmbl-boot-update/src/transaction.rs:168-180 | A power cut keeps the invariant and settles the selector. |
| `BootRuns.StoppedIsSafeIff` | sirati-nmbl/nmbl-init-rs/nmbl-boot-update/src/transaction.rs:36-73 | An install from a safe directory, stopped anywhere, leaves every power cut bootable if and only if no possible selector value named its target or the target has not been taken apart. |
| `BootRuns.UnsettledMeansDisputed` | sirati-nmbl/nmbl-init-rs/nmbl-boot-update/src/transaction.rs:23-73 | A statement about the failing steps: over any sequence of installs and power cuts the selector is disputed exactly when the last step that says anything about it is a failed final sync over an older selector. An activation, any other failing step of writing the selector and a power cut settle it; Unchanged and all other failing steps leave it as it was. |
| `BootAnswers.FinalSyncShowsInTheSelector` | sirati-nmbl/nmbl-init-rs/nmbl-boot-update/src/transaction.rs:182-190 | Among the three directory syncs, which fail with one message, the last is the one that failed exactly when the selector names another slot than before. |
| `BootAnswers.TextsOfSteps` | sirati-nmbl/nmbl-init-rs/nmbl-boot-update/src/transaction.rs:23-219 | Which steps one message text does not tell apart: the three directory syncs; the metadata and the selector's temporary; the checks of a bundle and the copying of its members; and the two removals. All others have texts of their own. |
| `BootRuns.StepSettles` | sirati-nmbl/nmbl-init-rs/nmbl-boot-update/src/transaction.rs:23-73 | How one failing step, success or power cut decides the dispute. |
| `BootRuns.RunIsSafeIff` | sirati-nmbl/nmbl-init-rs/nmbl-boot-update/src/transaction.rs:23-73 | Every directory of such a sequence is safe if and only if no install took its target apart while the selector was unsettled. |
| `BootRuns.EveryCrashBootsIff` | sirati-nmbl/nmbl-init-rs/nmbl-boot-update/src/transaction.rs:23-73 | Every power cut at every point of such a sequence leaves no selector or one naming a complete set that passes validation, if and only if that condition holds. |
| `BootRuns.CautionIsEnough` | sirati-nmbl/nmbl-init-rs/nmbl-boot-update/src/transaction.rs:23-73 | Every power cut of a sequence boots when, while the selector is unsettled, only bundles are installed that cannot touch their target, which the directory before the install tells; and when no final sync over an older selector ever fails. |
| `BootRuns.DisputedInstallLosesSlot` | sirati-nmbl/nmbl-init-rs/nmbl-boot-update/src/transaction.rs:54-73 | From every safe directory with a disputed selector, an aimed install that touches its target can end where some power cut does not boot: with only the renaming of its stage failing, or, when something that is no directory stands in the place of the stage, with no call failing at all. |
| `BootRuns.UntouchingInstallIsSafe` | sirati-nmbl/nmbl-init-rs/nmbl-boot-update/src/transaction.rs:54-73 | An install that does not touch its target leaves every power cut bootable from every safe directory, however it stops. |
| `BootRuns.OddStageCostsTheTarget` | sirati-nmbl/nmbl-init-rs/nmbl-boot-update/src/transaction.rs:54-57 | With room only in the place of the old set and no directory in the place of the stage, a fault-free install removes the old set and is then refused. |
| `BootRuns.OnlyTheFinalSyncFails` | sirati-nmbl/nmbl-init-rs/nmbl-boot-update/src/transaction.rs:182-190 | Every install that would activate can fail at its final sync and nowhere else. |
| `BootRuns.OnlyTheRenameFails` | sirati-nmbl/nmbl-init-rs/nmbl-boot-update/src/transaction.rs:69-71 | Every install that has room for its set can fail at the renaming of its stage and nowhere else. |
| `BootRuns.RetriesConverge` | sirati-nmbl/nmbl-init-rs/nmbl-boot-update/src/transaction.rs:36-73 | However many attempts at a bundle were stopped or cut, the next finds the set running with exactly its files, or the old selector, and then activates the set if and only if there is room. |
| `BootRuns.RetriesEndRunning` | sirati-nmbl/nmbl-init-rs/nmbl-boot-update/src/transaction.rs:36-73 | After any stopped or cut attempts a fault-free call succeeds if and only if the set is selected already or has room, and a second call then answers Unchanged with the selector on the slot and the slot holding exactly the bundle's files. |
| `BootRuns.AttemptsStayMidway` | sirati-nmbl/nmbl-init-rs/nmbl-boot-update/src/transaction.rs:36-73 | Between the attempts the selector is the old one, settled, or the new one over the complete set, and the slot selected at first is unchanged. |
| `BootRuns.LeftoverStageNeedsRoomTwice` | sirati-nmbl/nmbl-init-rs/nmbl-boot-update/src/transaction.rs:54-57 | With the target gone and a complete stage left behind, a repeat has room exactly when the set fits a second time. |
| `BootRuns.CrashShowsOldOrNew` | sirati-nmbl/nmbl-init-rs/nmbl-boot-update/src/transaction.rs:69-73 | A power cut during an install from a settled directory shows the old selector with its slot unchanged, or the new selector with the complete new slot. |
| `BootRuns.FailedFinalSyncDisputes` | sirati-nmbl/nmbl-init-rs/nmbl-boot-update/src/transaction.rs:182-190 | A failed final sync leaves both selector values possible, and the selector disputed exactly when it replaced an older one. |
| `BootRuns.PublishedRuns` | sirati-nmbl/nmbl-init-rs/nmbl-boot-update/src/transaction.rs:36-49 | A published and selected set is what the Unchanged check recognises. |
| `BootAnswers.MetadataShowsInTheTarget` | sirati-nmbl/nmbl-init-rs/nmbl-boot-update/src/transaction.rs:153-190 | A metadata message came from the selector exactly when the target holds the set afterwards, unless it held it before. |
| `BootAnswers.WhatIsJudgedIsTrue` | sirati-nmbl/nmbl-init-rs/nmbl-boot-update/src/transaction.rs:23-73 | Over any sequence of installs and power cuts: when the messages and the directory read before and after each install make the test say settled, the selector is undisputed, and when they make it say disputed, it is disputed; the test stays open only after a metadata message over a target that held the set before and after. |
| `BootAnswers.ClearViewsTellAll` | sirati-nmbl/nmbl-init-rs/nmbl-boot-update/src/transaction.rs:23-73 | In a sequence without such a message the selector is undisputed if and only if the test says settled. |
| `BootAnswers.PrudenceIsEnough` | sirati-nmbl/nmbl-init-rs/nmbl-boot-update/src/transaction.rs:23-73 | A caller who installs only bundles that cannot touch their target, unless the test says settled, keeps every power cut bootable. |
| `BootAnswers.SameViewBothWays` | sirati-nmbl/nmbl-init-rs/nmbl-boot-update/src/transaction.rs:96-102 | From a disputed selector, an install of a set that its target holds already can fail at the metadata of its stage or at the selector's temporary file with the same message and the same directory before and after; the first leaves the selector disputed, the second settles it. |
| `BootExamples.SameViewsOfTwoRuns` | sirati-nmbl/nmbl-init-rs/nmbl-boot-update/src/transaction.rs:182-190 | Two whole runs from a settled directory with the same views throughout, one ending disputed and one settled, so no test of what a caller sees is exact. |
| `BootExamples.FailedSyncThenInstallLosesTheSelectedSlot` | sirati-nmbl/nmbl-init-rs/nmbl-boot-update/src/transaction.rs:23-73 | The run, call by call: an install failing only at its final sync, a fault-free repeat that answers Unchanged, a second install failing only at its renaming, and a power cut that selects the slot it emptied. |
| `BootExamples.SampleSlotIsLost` | sirati-nmbl/nmbl-init-rs/nmbl-boot-update/src/transaction.rs:23-73 | Sets and a root for that run exist: with the sample sets it ends where some power cut does not boot. |
| `BootExamples.ExactRoomIsPublishedButNotSelected` | sirati-nmbl/nmbl-init-rs/nmbl-boot-update/src/transaction.rs:75-94 | A fault-free install into an empty root with exactly the room that preflight asks for ends with the set published and not selected. |
| `BootExamples.LeftoverStageBlocksEveryRepeat` | sirati-nmbl/nmbl-init-rs/nmbl-boot-update/src/transaction.rs:54-57 | For any set and room for it once but not twice, an install failing only at the renaming of its stage leaves a directory in which every fault-free repeat fails for space and changes nothing. |
| `BootExamples.NoRepeatHelps` | sirati-nmbl/nmbl-init-rs/nmbl-boot-update/src/transaction.rs:54-57 | Where there is no room, any number of fault-free repeats fails for space. |
| `BootBundles.AllocationIsLeastMultiple` | sirati-nmbl/nmbl-init-rs/nmbl-boot-update/src/validate.rs:154-156 | The accounting is the least multiple of 4096 that holds the file, if and only if the length is at most 2^64 - 4096. |
| `BootBundles.ReadArtifacts` | sirati-nmbl/nmbl-init-rs/nmbl-boot-update/src/validate.rs:50-87 | Opens and checks every member in order and adds the space of each once; succeeds exactly when all check out and the total is a 64-bit number. |
| `BootBundles.ValidateBundle` | sirati-nmbl/nmbl-init-rs/nmbl-boot-update/src/validate.rs:28-94 | Accepts exactly the complete sets, pins the bytes of every member, and totals the blocks the staged directory takes. |
| `BootAcceptances.AcceptsIff` | sirati-nmbl/nmbl-init-rs/nmbl-boot-update/src/validate.rs:28-94 | Which sets are valid, with every file name, signing domain and limit written out: a signed manifest of at most 1 MiB for slot A or B, the five required roles, none twice, and for each its file, its signature of at most 64 KiB under its own domain, and its digest in either case. |
| `BootAcceptances.MemberOkIff` | sirati-nmbl/nmbl-init-rs/nmbl-boot-update/src/manifest.rs:44-121 | One member: the file name and the signing domain of each role, written out, with digest and signature. |
| `BootBundles.StagedSetAccepts` | sirati-nmbl/nmbl-init-rs/nmbl-boot-update/src/validate.rs:28-94 | The staged copy of a valid bundle is itself valid, and its size on disk is the validated total. |
| `BootBundles.AcceptanceIsLocal` | sirati-nmbl/nmbl-init-rs/nmbl-boot-update/src/validate.rs:28-94 | Validation depends on the listed members only. |
| `BootBundles.BlocksOfIsTreeBlocks` | sirati-nmbl/nmbl-init-rs/nmbl-boot-update/src/validate.rs:47-78 | Counting the listed names counts the directory they fill: nothing twice, nothing missed. |
| `BootBundles.PrefixSetStep` | sirati-nmbl/nmbl-init-rs/nmbl-boot-update/src/transaction.rs:96-135 | Each staging step writes two new names, and no prefix of the staging needs more than the whole. |
| `Manifests.ValidateShape` | sirati-nmbl/nmbl-init-rs/nmbl-boot-update/src/manifest.rs:63-136 | The check with its three growing sets accepts exactly the well-shaped manifests; the duplicate-name checks never fire beyond the duplicate-role check. |
| `Manifests.StagedNamesDistinct` | sirati-nmbl/nmbl-init-rs/nmbl-boot-update/src/manifest.rs:63-136 | Every accepted manifest stages pairwise distinct names, its own two files included. |
| `Manifests.RoleNamesDiffer` | sirati-nmbl/nmbl-init-rs/nmbl-boot-update/src/manifest.rs:44-52 | Two roles never share a payload or signature name. |
| `Manifests.HasRequired` | sirati-nmbl/nmbl-init-rs/nmbl-boot-update/src/manifest.rs:122-134 | The loop over required roles answers whether all are present. |
| `BootProducers.Producer.Populate` | sirati-nmbl/nmbl-init-rs/nmbl-boot-update/src/prepare.rs:52-123 | Every copy, signature and write can fail. Without faults the output is finished exactly when every member found is a regular file, no required one is missing, and manifest and set are within their limits. A run that stops has not written the manifest's signature, or has written everything else. |
| `BootProducers.Producer.Prepare` | sirati-nmbl/nmbl-init-rs/nmbl-boot-update/src/prepare.rs:32-50 | An output that exists is refused and left alone. Without faults the run succeeds exactly under the conditions above and leaves nothing when it fails; a bundle it produces is one the validator accepts as exactly itself, holding exactly the files found, signed under their domains. Whatever happens, an output left behind that the validator would accept holds exactly what a finished run makes, but for part of the signature written last. |
| `BootProducers.LeftoverIsComplete` | sirati-nmbl/nmbl-init-rs/nmbl-boot-update/src/prepare.rs:44-49 | What is left of a cut run, even half removed, is accepted only if no file is missing or different, the last signature aside. |
| `BootProducers.Producer.CopyMembers` | sirati-nmbl/nmbl-init-rs/nmbl-boot-update/src/prepare.rs:59-107 | Copies and signs every member found into an empty output that then holds nothing else; without faults it fails exactly when a required one is missing or one is no regular file, and then the output has no manifest signature. |
| `BootProducers.AcceptsUnlessTooLarge` | sirati-nmbl/nmbl-init-rs/nmbl-boot-update/src/prepare.rs:108-122 | The final check of a finished output accepts it if and only if manifest and set are within their limits. |
| `BootDeliveries.MadeCame` | sirati-nmbl/nmbl-init-rs/nmbl-boot-update/src/prepare.rs:52-123 | A finished run holds each member found under the name of its role, unchanged, with its signature under the domain of its role, and no other; its manifest is for the slot it was asked for and is signed. |
| `BootDeliveries.MadeIsDetermined` | sirati-nmbl/nmbl-init-rs/nmbl-boot-update/src/prepare.rs:59-107 | Producing is reproducible: two runs from the same sources for the same slot make the same manifest and the same files. |
| `BootDeliveries.IdentityIsInjective` | sirati-nmbl/nmbl-init-rs/nmbl-boot-update/src/prepare.rs:69-79 | The text that is hashed to the set id tells the slot and every name and digest, although nothing separates them. |
| `BootDeliveries.SetIdIdentifiesSet` | sirati-nmbl/nmbl-init-rs/nmbl-boot-update/src/prepare.rs:69-104 | With hashes that tell contents apart, two finished runs with one set id made the same set for the same slot, whatever their sources were. |
| `BootDeliveries.PrepareThenInstall` | sirati-nmbl/nmbl-init-rs/nmbl-boot-update/src/prepare.rs:32-50 | From the source directory to the slot: a produced set is activated by a fault-free install if and only if it is aimed at the inactive slot, not running and has room, and then that slot is selected and holds each source member unchanged with its signature. |
| `Mirrors.InstallOne` | sirati-nmbl/nmbl-init-rs/nmbl-boot-update/src/protocol.rs:123-132 | One mirror takes the request with its outcome, or stops where an install with its error stops. |
| `Mirrors.InstallAll` | sirati-nmbl/nmbl-init-rs/nmbl-boot-update/src/protocol.rs:119-133 | Mirrors before the failing one took the set, each with its own outcome; the failing one is where an install with the reported error stops; later ones are untouched; without faults the request succeeds exactly when every mirror runs the set or can take it. |
| `Mirrors.InstallAllKeepsBooting` | sirati-nmbl/nmbl-init-rs/nmbl-boot-update/src/protocol.rs:119-133 | Wherever the request stops, every mirror that was safe and settled boots after any power cut, with its old set or with the new one complete. |
| `Mirrors.RepeatServesEveryRoot` | sirati-nmbl/nmbl-init-rs/nmbl-boot-update/src/protocol.rs:119-133 | After any number of requests, stopped anywhere and with power cuts between, each mirror runs the set or has its old selector, and the next request is served there if and only if it runs the set or has room. |
| `Mirrors.FinishEveryRoot` | sirati-nmbl/nmbl-init-rs/nmbl-boot-update/src/protocol.rs:119-133 | After any stopped and cut requests, once each mirror has the set selected or room for it, one more request without faults succeeds and ends with exactly the bundle's files selected on every mirror. |
| `GenerationRoots.GenerationRoot.PrepareBoot` | sirati-nmbl/nmbl-init-rs/src/generation_state.rs:26-52 | The outcome, from the link texts and the files behind them: with readable links and no faults a boot proceeds if and only if nothing is attempted, and then the active generation is; it rolls back if and only if that is on, pending equals attempted, and tested is there and differs, and then active and attempted are on the tested one, pending is gone and the event names both; otherwise it reports Failed and changes nothing. The updates are made in order, durably before success; it logs exactly one proceed; a rollback ends on a generation blessed earlier and different from the failed one. |
| `GenerationRoots.GenerationRoot.ReadLinks` | sirati-nmbl/nmbl-init-rs/src/generation_state.rs:28-50 | Reads four links and picks the branch; it boots the generation that the active link names, and only when nothing is attempted; a bad or missing link writes nothing. |
| `GenerationLinks.BootBranches` | sirati-nmbl/nmbl-init-rs/src/generation_state.rs:28-50 | Which outcome a boot decides on: an error exactly when active is missing or a link is broken, its text and the files behind it written out; Proceed exactly when nothing is attempted; RolledBack exactly when that is on, pending equals attempted, and tested is there and differs; otherwise Failed. |
| `GenerationLinks.BootLands` | sirati-nmbl/nmbl-init-rs/src/generation_state.rs:33-51 | What each outcome leaves in the links and the event. |
| `GenerationLinks.WholeIsParsed` | sirati-nmbl/nmbl-init-rs/src/generation_state.rs:111-144 | A link is readable exactly when its text is the prefix and 128 lower-case hexadecimal digits naming a generation with image and signature. |
| `GenerationExamples.ActivateAndBoot` | sirati-nmbl/nmbl-init-rs/src/generation_state.rs:50-51 | The boot after a fault-free activation proceeds with the new generation attempted, whatever was attempted, pending or active before; only a broken tested link stops it. |
| `GenerationExamples.BootMarkBoot` | sirati-nmbl/nmbl-init-rs/src/generation_state.rs:26-67 | A generation that is activated, boots and is marked is the tested one with nothing pending and no event, and the next boot proceeds with it. |
| `GenerationExamples.BootAgainUnmarked` | sirati-nmbl/nmbl-init-rs/src/generation_state.rs:33-48 | A generation that is activated, boots and is not marked is not booted again: the next boot rolls back to the tested generation if that is on and there is another one, and otherwise reports Failed. |
| `GenerationRoots.GenerationRoot.FallBack` | sirati-nmbl/nmbl-init-rs/src/generation_state.rs:37-45 | The rollback branch: every intermediate directory is a prefix of its plan. |
| `GenerationRoots.GenerationRoot.MarkSuccess` | sirati-nmbl/nmbl-init-rs/src/generation_state.rs:54-67 | Without faults it succeeds if and only if active and attempted are one whole generation, and then that is tested, and pending, the event and the attempt are gone, the attempt last; a cut leaves a prefix of the plan. |
| `GenerationLinks.MarkingLands` | sirati-nmbl/nmbl-init-rs/src/generation_state.rs:54-67 | When a marking is possible and what it leaves, from the link texts. |
| `GenerationRoots.GenerationRoot.Store` | sirati-nmbl/nmbl-init-rs/src/generation_state.rs:146-166 | One link or event replaced by rename and sync: old or new at every cut, new after success. |
| `GenerationRoots.GenerationRoot.Remove` | sirati-nmbl/nmbl-init-rs/src/generation_state.rs:168-174 | One name removed and synced, or absent already. |
| `GenerationRoots.GenerationRoot.Next` | sirati-nmbl/nmbl-init-rs/src/generation_state.rs:26-67 | A plan of updates advances one durable step at a time; every directory a power cut can reveal shows a prefix of it. |
| `GenerationRoots.GenerationRoot.Activate` | sirati-nmbl/nmbl-init-rs/nmbl-host-tools/src/receive.rs:411-440 | A sound generation becomes active, without faults always; a cut shows the old links (previous aside) or the new generation active; the old attempt is gone only then. Every cut stays sound when the generation is durable or another active link is kept and synced first. |
| `GenerationRoots.GenerationRoot.Supersede` | sirati-nmbl/nmbl-init-rs/nmbl-host-tools/src/receive.rs:428-440 | The part after the previous link: pending unless already tested, then the final removals under one sync. |
| `GenerationRoots.GenerationRoot.InstallGeneration` | sirati-nmbl/nmbl-init-rs/nmbl-host-tools/src/receive.rs:334-377 | Publishes a generation under its id unless present, with exactly the deliverable members of the bundle and the file naming the id, never changes an installed one, and reports success only for sound ones. A failed sync after the renaming leaves a generation that a power cut may take, and a repeat neither renames nor syncs. |
| `GenerationRoots.GenerationRoot.MoveIn` | sirati-nmbl/nmbl-init-rs/nmbl-host-tools/src/receive.rs:342-375 | Copy, rename into place and sync of the file system, each of which can fail on its own; a failure before the renaming leaves nothing under the id. |
| `GenerationRoots.GenerationRoot.CopyMembers` | sirati-nmbl/nmbl-init-rs/nmbl-host-tools/src/receive.rs:343-369 | The loop over the member list copies every member that is there, unchanged and nothing else, and adds the file naming the id. |
| `GenerationExamples.FilesAreDelivered` | sirati-nmbl/nmbl-init-rs/nmbl-host-tools/src/receive.rs:343-369 | Of the fifteen payloads of a stream, all but the kernel and the initrd themselves come with an installed generation, unchanged. |
| `GenerationExamples.NothingElseIsDelivered` | sirati-nmbl/nmbl-init-rs/nmbl-host-tools/src/receive.rs:343-369 | Nothing else does but the generation file, which holds the id and a newline. |
| `GenerationRoots.GenerationRoot.Relink` | sirati-nmbl/nmbl-init-rs/nmbl-host-tools/src/receive.rs:391-397 | One link replaced by rename and a sync of the whole file system, which also makes installed generations durable. |
| `GenerationRoots.GenerationRoot.UnanchoredActivationBreaks` | sirati-nmbl/nmbl-init-rs/nmbl-host-tools/src/receive.rs:411-440 | The condition on activations is needed: any activation without it that fails only at its first sync leaves a directory that some power cut makes unsound. |
| `GenerationRoots.DiskSoundIffEveryCut` | sirati-nmbl/nmbl-init-rs/nmbl-host-tools/src/receive.rs:334-440 | Links are sound on the surviving generations if and only if every power cut leaves sound links, whichever unsynced generations it takes. |
| `GenerationExamples.ActivatedThenLost` | sirati-nmbl/nmbl-init-rs/nmbl-host-tools/src/receive.rs:334-440 | The run, call by call: an install failing only at its sync, a fault-free repeat that reports success, an activation failing only at its first sync, and a power cut after which active names a generation that is gone. |
| `GenerationRoots.GenerationRoot.Validate` | sirati-nmbl/nmbl-init-rs/nmbl-host-tools/src/receive.rs:314-332 | Accepts exactly the ids of 128 lower-case hexadecimal digits with image and signature whose image hashes to the id. |
| `GenerationRoots.GenerationRoot.Run` | sirati-nmbl/nmbl-init-rs/src/generation_state.rs:26-67 | Any run of boots, markings, receptions and activations with faults and power cuts anywhere: an attempt was cleared between any two boots that proceed, and tested only names generations attempted while active. All links stay on sound generations that are there, provided each activation was anchored as above, which holds when no install failed at its sync. |
| `GenerationRoots.GenerationRoot.Perform` | sirati-nmbl/nmbl-init-rs/src/generation_state.rs:26-67 | Each operation or power cut, which may take any unsynced generations, keeps the invariants and logs a proceed exactly when it proceeds. |
| `GenerationRoots.ProceedsAreSeparated` | sirati-nmbl/nmbl-init-rs/src/generation_state.rs:30-51 | Between two proceeds of any history there is a cleared attempt. |
| `GenerationRoots.Advance` | sirati-nmbl/nmbl-init-rs/src/generation_state.rs:146-174 | A made or unmade update extends a plan prefix by at most one step on every possible disk state. |
| `GenerationLinks.CutRollbackNeverProceeds` | sirati-nmbl/nmbl-init-rs/src/generation_state.rs:33-51 | A cut inside the rollback branch, then another boot with rollback on: it rolls back to the same generation or reports Failed with that generation active, never Proceed. |
| `GenerationExamples.CutRollbacksNeverProceed` | sirati-nmbl/nmbl-init-rs/src/generation_state.rs:26-51 | Once a boot decides to roll back, no number of further boots with rollback proceeds, however each is cut and whatever unsynced generations are lost: each rolls back to the same generation, reports Failed with it active, or fails. |
| `GenerationExamples.RollbackResumes` | sirati-nmbl/nmbl-init-rs/src/generation_state.rs:33-45 | Starting a rollback again from where it was cut reaches no new state. |
| `GenerationLinks.RollbackLands` | sirati-nmbl/nmbl-init-rs/src/generation_state.rs:33-45 | A completed rollback leaves active and attempted on the tested generation, which differs from the failed one. |
| `GenerationLinks.CutMarkingResumes` | sirati-nmbl/nmbl-init-rs/src/generation_state.rs:54-67 | A marking cut while its attempt remains can be run again and reaches the same links. |
| `GenerationLinks.ActivationLands` | sirati-nmbl/nmbl-init-rs/nmbl-host-tools/src/receive.rs:411-440 | The updates of a whole activation, made in order, leave the links that the next row describes. |
| `GenerationLinks.ActivatedLinks` | sirati-nmbl/nmbl-init-rs/nmbl-host-tools/src/receive.rs:422-438 | The links after an activation, from the texts before it: active is the new one; pending too, unless it is the tested one; nothing is attempted and there is no event; the replaced link is previous unless it names the same generation or none that is there; tested is as it was. |
| `BundleStreams.StreamRoundTrip` | sirati-nmbl/nmbl-init-rs/nmbl-host-tools/src/receive.rs:452-519 | Parsing the rendered stream of any valid header and payloads of the stated sizes yields exactly them. |
| `BundleStreams.AcceptedStreamsArePrefixFree` | sirati-nmbl/nmbl-init-rs/nmbl-host-tools/src/receive.rs:512-519 | Every strict extension of an accepted stream is rejected as trailing data, and every strict prefix is rejected. |
| `BundleStreams.AcceptedStreamIsItsParts` | sirati-nmbl/nmbl-init-rs/nmbl-host-tools/src/receive.rs:452-519 | Conversely, an accepted stream is nineteen lines that say its header followed by exactly the announced payloads, every byte accounted for. |
| `BundleStreams.FieldsReadBack` | sirati-nmbl/nmbl-init-rs/nmbl-host-tools/src/receive.rs:136-192 | The nineteen lines of a valid header parse to it. |
| `BundleStreams.HeaderReadsBack` | sirati-nmbl/nmbl-init-rs/nmbl-host-tools/src/receive.rs:114-192 | The text of a valid header parses to it and leaves the position at the first payload byte, with the magic judged after sixteen lines. |
| `BundleStreams.MembersAreRead` | sirati-nmbl/nmbl-init-rs/nmbl-host-tools/src/receive.rs:509-511 | The members read are the announced ones with the announced sizes, byte for byte. |
| `BundleStreams.LinesAreRead` | sirati-nmbl/nmbl-init-rs/nmbl-host-tools/src/receive.rs:115-118 | The bytes read for the header are its lines with their newlines. |
| `BundleStreams.AnnouncedOnce` | sirati-nmbl/nmbl-init-rs/nmbl-host-tools/src/receive.rs:477-508 | No two payloads of a bundle are stored under one name, so creating one anew never collides. |
| `BundleStreams.SizeReadsBack` | sirati-nmbl/nmbl-init-rs/nmbl-host-tools/src/receive.rs:101-112 | A decimal size within the limit parses to itself. |
| `BundleStreams.ReadUntil` | sirati-nmbl/nmbl-init-rs/nmbl-host-tools/src/receive.rs:76-92 | The bounded read stops after the first newline, at the limit, or at the end. |
| `BundleStreams.ParseEachSize` | sirati-nmbl/nmbl-init-rs/nmbl-host-tools/src/receive.rs:144-168 | Parses the sizes in order and stops at the first bad one. |
| `BundleStreams.BundleReader.NextLine` | sirati-nmbl/nmbl-init-rs/nmbl-host-tools/src/receive.rs:76-92 | One line of at most 256 bytes, or which of the three errors; the position moves past its newline. |
| `BundleStreams.BundleReader.NextLines` | sirati-nmbl/nmbl-init-rs/nmbl-host-tools/src/receive.rs:115-118 | Lines in order, the first error ending the loop. |
| `BundleStreams.BundleReader.ParseHeader` | sirati-nmbl/nmbl-init-rs/nmbl-host-tools/src/receive.rs:114-192 | The parser with its cursor agrees with the functional header reading, errors included. |
| `BundleStreams.BundleReader.CheckFields` | sirati-nmbl/nmbl-init-rs/nmbl-host-tools/src/receive.rs:136-192 | The field checks in their order, with the error of the first that fails. |
| `BundleStreams.BundleReader.ReceiveFile` | sirati-nmbl/nmbl-init-rs/nmbl-host-tools/src/receive.rs:230-243 | Exactly the announced bytes are copied, or the payload is truncated. |
| `BundleStreams.BundleReader.ReceiveAll` | sirati-nmbl/nmbl-init-rs/nmbl-host-tools/src/receive.rs:452-519 | Header, payloads and the end-of-stream check give the functional result. When it accepts: a payload is there if and only if its size in the header is positive, it has that many bytes, and it starts right behind the header and all payloads before it, by a table of the fifteen places that is not the reader's. |
| `BundleStreams.AcceptedPayloads` | sirati-nmbl/nmbl-init-rs/nmbl-host-tools/src/receive.rs:477-511 | In an accepted stream every payload has the size that stands at its place in the header, is there exactly when that is positive, and stands right behind those of lower place. |
| `BundleAcceptances.ParsedIff` | sirati-nmbl/nmbl-init-rs/nmbl-host-tools/src/receive.rs:133-192 | The field checks accept exactly these lines: two ids of 128 lower-case hexadecimal digits, fifteen decimal sizes of at most 64 GiB, a flag 0 or 1, ten sizes positive, and the two optional pairs both or neither; and the header is what they say, line by line. |
| `BundleAcceptances.AcceptedIff` | sirati-nmbl/nmbl-init-rs/nmbl-host-tools/src/receive.rs:452-519 | A stream is accepted if and only if it starts with nineteen such lines of at most 256 bytes under the magic and goes on for exactly as many bytes as they announce. |
| `BundleAcceptances.AcceptedTells` | sirati-nmbl/nmbl-init-rs/nmbl-host-tools/src/receive.rs:114-192 | And its header is what those lines tell. |
| `BundleFaults.LineFault` | sirati-nmbl/nmbl-init-rs/nmbl-host-tools/src/receive.rs:76-92 | Which error a line gives: too long beyond 256 bytes, truncated without a newline, not UTF-8, or none. |
| `BundleFaults.FieldFaults` | sirati-nmbl/nmbl-init-rs/nmbl-host-tools/src/receive.rs:133-168 | Which error the fields give, in the order of the checks: the ids, the first bad size (out of range when it is digits), the flag. |
| `BundleFaults.PayloadFaults` | sirati-nmbl/nmbl-init-rs/nmbl-host-tools/src/receive.rs:170-190 | Which error incomplete payloads give: a required one missing, then the network pair, then the tools pair. |
| `BundleFaults.MagicFaults` | sirati-nmbl/nmbl-init-rs/nmbl-host-tools/src/receive.rs:114-129 | After sixteen readable lines the previous version and any other wrong magic have their errors, whatever follows. |
| `BundleFaults.LengthDecides` | sirati-nmbl/nmbl-init-rs/nmbl-host-tools/src/receive.rs:509-519 | What a stream with good header lines is answered depends on its length alone: truncated, accepted or trailing data. |
| `BundleFaults.PayloadErrorsIff` | sirati-nmbl/nmbl-init-rs/nmbl-host-tools/src/receive.rs:509-519 | Truncated payload and trailing data are answered exactly for good header lines with fewer, or more, bytes behind them than they announce. |
| `BundleFaults.CutStreamIsTruncated` | sirati-nmbl/nmbl-init-rs/nmbl-host-tools/src/receive.rs:76-92 | Every strict prefix of an accepted stream is answered as truncated, in its header or in a payload, according to its length. |
| `BundleFaults.TrailingIff` | sirati-nmbl/nmbl-init-rs/nmbl-host-tools/src/receive.rs:512-519 | Trailing data is answered exactly when a strict prefix of the stream is accepted. |
| `Transcript.EscapeRoundTrip` | sirati-nmbl/nmbl-init-rs/nmbl-host-tools/src/log_import.rs:99-139 | Unescaping the full escaped text gives back the raw bytes. |
| `Transcript.EscapeIsInjective` | sirati-nmbl/nmbl-init-rs/nmbl-host-tools/src/log_import.rs:99-139 | Two lines with the same escaped text have the same bytes. |
| `Transcript.Escape` | sirati-nmbl/nmbl-init-rs/nmbl-host-tools/src/log_import.rs:99-139 | The loop keeps the longest prefix of whole units that fits the budget and counts the raw bytes it covers. |
| `Transcript.FitsIsUnique` | sirati-nmbl/nmbl-init-rs/nmbl-host-tools/src/log_import.rs:99-139 | Only one prefix is the longest that fits. |
| `Transcript.PiecesPrintable` | sirati-nmbl/nmbl-init-rs/nmbl-host-tools/src/log_import.rs:74-82 | No rendered unit contains a character that must be escaped; which those are is written out in `Transcript.RenderLine`. |
| `Transcript.RenderLine` | sirati-nmbl/nmbl-init-rs/nmbl-host-tools/src/log_import.rs:85-95 | An entry is the whole escaped line if it fits, otherwise the longest prefix that fits beside the marker of the whole, then the marker of what is missing. No character of it is below 0x20 other than a tab, in 0x7F-0x9F, 0x200B-0x200F, 0x2028-0x202E or 0x2060-0x2069, or 0xFEFF. |
| `Transcript.EntryIsHarmless` | sirati-nmbl/nmbl-init-rs/nmbl-host-tools/src/log_import.rs:74-95 | The same ranges, for every entry of every line under every bound. |
| `TranscriptTexts.PieceForms` | sirati-nmbl/nmbl-init-rs/nmbl-host-tools/src/log_import.rs:99-139 | What becomes of each unit: a stray byte and a harmful character below 0x80 two hexadecimal digits, other harmful characters their digits in braces without leading zeros, a backslash two, and every other character itself. |
| `TranscriptTexts.CleanLineIsItself` | sirati-nmbl/nmbl-init-rs/nmbl-host-tools/src/log_import.rs:85-95 | A line of UTF-8 text without a backslash and without those characters that fits its bound is its own entry. |
| `TranscriptTexts.KnownEncodings` | sirati-nmbl/nmbl-init-rs/nmbl-host-tools/src/log_import.rs:99-139 | The character encodings agree with the examples of section 7 of RFC 3629 and with that of the right-to-left override. |
| `Transcript.EntryBounded` | sirati-nmbl/nmbl-init-rs/nmbl-host-tools/src/log_import.rs:85-95 | An entry stays within its bound if and only if the line fits or the bound has room for the marker of the whole line. |
| `Transcript.ProductionEntryFits` | sirati-nmbl/nmbl-init-rs/nmbl-host-tools/src/log_import.rs:29-33 | With the production limits every entry fits. |
| `Transcript.EntryPrintable` | sirati-nmbl/nmbl-init-rs/nmbl-host-tools/src/log_import.rs:85-95 | No entry contains a character that must be escaped, or a newline. |
| `Transcript.EntryReadsBack` | sirati-nmbl/nmbl-init-rs/nmbl-host-tools/src/log_import.rs:85-143 | A whole entry reads back as the line; of a truncated one the text before the marker reads back as the kept bytes and the number is the count of the others. |
| `Transcript.SameEntry` | sirati-nmbl/nmbl-init-rs/nmbl-host-tools/src/log_import.rs:85-143 | Two lines with the same entry: whole ones are equal, truncated ones have the same kept bytes and miss equally many, and a whole and a truncated one meet only in a text that ends in a marker. |
| `Transcript.UnmarkedEntryDeterminesItsLine` | sirati-nmbl/nmbl-init-rs/nmbl-host-tools/src/log_import.rs:85-143 | An entry that does not end in a marker determines its line. |
| `Transcript.TruncatedEntryIsAmbiguous` | sirati-nmbl/nmbl-init-rs/nmbl-host-tools/src/log_import.rs:85-143 | A truncated entry within its bound never determines its line: a different line, the kept bytes followed by the text of the marker, has it as its whole entry. |
| `Transcript.DeterminedIffNotTruncated` | sirati-nmbl/nmbl-init-rs/nmbl-host-tools/src/log_import.rs:85-143 | An entry within its bound determines its line if and only if it is not the entry of a truncated line. |
| `Transcript.ShortEntryDeterminesItsLine` | sirati-nmbl/nmbl-init-rs/nmbl-host-tools/src/log_import.rs:29-33 | With the production limits an entry of at most 4082 bytes determines its line, and unescaping gives the line back. |
| `Transcript.TruncatedEntryIsLong` | sirati-nmbl/nmbl-init-rs/nmbl-host-tools/src/log_import.rs:85-95 | A truncated entry misses its bound by fewer bytes than the marker of the whole line has beyond thirteen. |
| `Utf8Units.CanonicalIsUnique` | sirati-nmbl/nmbl-init-rs/nmbl-host-tools/src/log_import.rs:99-139 | Bytes split in only one way into characters and stray bytes when a byte is stray only where no character starts. |
| `Transcript.MarkerIsUnique` | sirati-nmbl/nmbl-init-rs/nmbl-host-tools/src/log_import.rs:141-143 | A text ends in at most one marker. |
| `Transcript.MarkerRoundTrip` | sirati-nmbl/nmbl-init-rs/nmbl-host-tools/src/log_import.rs:141-143 | The number in a marker reads back. |
| `TranscriptTexts.MarkerText` | sirati-nmbl/nmbl-init-rs/nmbl-host-tools/src/log_import.rs:141-143 | The marker is its number between the two literal texts. |
| `TranscriptTexts.DecimalForm` | sirati-nmbl/nmbl-init-rs/nmbl-host-tools/src/log_import.rs:141-143 | Numbers are written to the base ten without leading zeros. |
| `Transcript.ReadBounded` | sirati-nmbl/nmbl-init-rs/nmbl-host-tools/src/log_import.rs:47-66 | Dropped plus kept bytes are the source; the body is the longest tail within the bound that starts after a newline, or exactly the last bytes when there is none. |
| `Transcript.TailIsLongest` | sirati-nmbl/nmbl-init-rs/nmbl-host-tools/src/log_import.rs:47-66 | The first newline the search can meet is the one that makes the tail the longest, also when a line starts exactly at the bound. |
| `Transcript.Entries` | sirati-nmbl/nmbl-init-rs/nmbl-host-tools/src/log_import.rs:146-162 | Header when bytes were dropped, one entry per non-empty line up to the limit, trailer counting the rest. |
| `TranscriptTexts.ImportParts` | sirati-nmbl/nmbl-init-rs/nmbl-host-tools/src/log_import.rs:146-162 | The entries counted and in place: the header text with the bytes dropped, exactly when there are any; one entry for each of the first lines; the trailer text with the number of lines left over, exactly when there are any. |
| `TranscriptTexts.NonEmptyKeeps` | sirati-nmbl/nmbl-init-rs/nmbl-host-tools/src/log_import.rs:151 | Every line that is not empty is kept, in order, and no other. |
| `TranscriptTexts.ImportIsHarmless` | sirati-nmbl/nmbl-init-rs/nmbl-host-tools/src/log_import.rs:146-162 | No character of any entry of an import is in the ranges of `Transcript.RenderLine`. |
| `Transcript.ImportIsPrintable` | sirati-nmbl/nmbl-init-rs/nmbl-host-tools/src/log_import.rs:146-162 | Every entry of an import is printable and their number is bounded. |
| `Transcript.ImportReadsBack` | sirati-nmbl/nmbl-init-rs/nmbl-host-tools/src/log_import.rs:146-162 | When nothing is dropped or truncated the entries read back as exactly the non-empty lines, in order. |
| `Transcript.DatagramHasThreeFields` | sirati-nmbl/nmbl-init-rs/nmbl-host-tools/src/log_import.rs:166-168 | A printable message cannot add a journal field: the datagram is exactly three fields. |
| `TranscriptTexts.DatagramFields` | sirati-nmbl/nmbl-init-rs/nmbl-host-tools/src/log_import.rs:166-168 | The three fields of a datagram, written out. |
| `Numerals.DecimalRoundTrip` | sirati-nmbl/nmbl-init-rs/nmbl-host-tools/src/log_import.rs:141-143 | A decimal numeral reads back as its number. |
| `Numerals.DecimalLengthMonotone` | sirati-nmbl/nmbl-init-rs/nmbl-host-tools/src/log_import.rs:87-95 | A larger count never has a shorter numeral, which is why the marker of the whole bounds the marker of the rest. |
| `Numerals.HexRoundTrip` | sirati-nmbl/nmbl-init-rs/nmbl-host-tools/src/log_import.rs:115-129 | A hexadecimal escape reads back as its number. |
| `SerialReaders.Drain` | vm-serial-man-rs/src/manager/pty.rs:98-173 | For any interleaving of chunks and idle timeouts every byte is emitted once and in order and the fragments group into the lines of the input. At every timeout all that had arrived is shown; a fragment that ends no line is not empty and ends at a timeout, so no part of a line is shown at any other time. Without timeouts the lines do not depend on the chunking. |
| `SerialReaders.TracksConserves` | vm-serial-man-rs/src/manager/pty.rs:98-173 | Emitted fragments with newlines restored plus the unflushed rest of pending are the bytes read so far. |
| `SerialReaders.SerialReader.Read` | vm-serial-man-rs/src/manager/pty.rs:140-158 | One chunk of bytes extends what was seen. |
| `SerialReaders.SerialReader.OnIdle` | vm-serial-man-rs/src/manager/pty.rs:160-165 | An idle timeout shows what is pending and unshown, once. |
| `SerialReaders.JoinSplit` | vm-serial-man-rs/src/manager/pty.rs:98-173 | The pieces between newlines, joined, are the bytes. |
| `Lines.SplitAppend` | vm-serial-man-rs/src/manager/pty.rs:140-158 | Appending bytes continues the last piece only. |
| `CborSlots.SlotRoundTrip` | sirati-nmbl/testing/stateful-bios-host/harness.py:48-85 | A slot holding the encoding of an encodable dictionary and any padding decodes to it. |
| `CborSlots.ItemRoundTrip` | sirati-nmbl/testing/stateful-bios-host/harness.py:53-81 | Decoding at an encoding gives the value and the position after it, wherever it stands. |
| `CborSlots.EncodingIsInjective` | sirati-nmbl/testing/stateful-bios-host/harness.py:53-81 | Two values with the same encoding are the same. |
| `CborSlots.DecodedHasNormalForm` | sirati-nmbl/testing/stateful-bios-host/harness.py:53-81 | Whatever decodes is encodable at its depth, and its shortest encoding is no longer than what was read. |
| `CborSlots.SlotsNormalise` | sirati-nmbl/testing/stateful-bios-host/harness.py:48-85 | Every slot that decodes has a normal form that fits a slot and decodes to the same value. |
| `CborGrammars.SlotIff` | sirati-nmbl/testing/stateful-bios-host/harness.py:48-85 | A slot decodes to a value if and only if it has 16384 bytes and starts with a dictionary of that meaning, written by the stated grammar: any of the five argument forms, counts of at most 16384, items at most 32 deep, keys that are neither lists nor dictionaries, text in UTF-8. |
| `CborGrammars.WrittenIsRead` | sirati-nmbl/testing/stateful-bios-host/harness.py:53-81 | Whatever the grammar writes is read as its meaning, wherever it stands. |
| `CborGrammars.ReadWasWritten` | sirati-nmbl/testing/stateful-bios-host/harness.py:53-81 | Whatever is read was written by the grammar, with that meaning and that length. |
| `CborGrammars.KnownNumbers` | sirati-nmbl/testing/stateful-bios-host/harness.py:59-71 | Numbers and primitives of the grammar are the bytes of appendix A of RFC 8949. |
| `CborGrammars.KnownLongNumbers` | sirati-nmbl/testing/stateful-bios-host/harness.py:62-69 | The long heads of appendix A of RFC 8949. |
| `CborGrammars.KnownStrings` | sirati-nmbl/testing/stateful-bios-host/harness.py:72-75 | Its byte and text strings. |
| `CborGrammars.KnownList` | sirati-nmbl/testing/stateful-bios-host/harness.py:75 | Its list of three. |
| `CborGrammars.KnownMap` | sirati-nmbl/testing/stateful-bios-host/harness.py:76-80 | A dictionary of appendix A of RFC 8949, its bytes and its meaning. |
| `CborFaults.FaultIsAnswer` | sirati-nmbl/testing/stateful-bios-host/harness.py:53-75 | Which error an item gives before anything inside it is read, from its bytes: too deep or past the end, an unsupported first byte, a truncated argument or string, a count above 16384, a tag, bad text; and without one every number, string and primitive is read. |
| `CborFaults.FirstFaultCounts` | sirati-nmbl/testing/stateful-bios-host/harness.py:75 | A list that is refused is refused for the first of its items that is. |
| `CborFaults.SlotFaults` | sirati-nmbl/testing/stateful-bios-host/harness.py:48-85 | A slot of another size, one with such a fault at its start, and one that starts with a number, a string or a primitive have the stated errors. |
| `CborSlots.FreshMeansDistinct` | sirati-nmbl/testing/stateful-bios-host/harness.py:76-81 | Entries come back in order exactly when no key repeats; a repeated key replaces. |
| `CborGrammars.LaterValueCounts` | sirati-nmbl/testing/stateful-bios-host/harness.py:76-80 | Storing under a key leaves the new value under every equal key and all others as they were. |
| `CborGrammars.StoreKeepsOrder` | sirati-nmbl/testing/stateful-bios-host/harness.py:76-80 | A repeated key keeps its place and its first spelling; a new one comes last. |
| `CborGrammars.KeysCompare` | sirati-nmbl/testing/stateful-bios-host/harness.py:76-80 | Two keys are one when they are equal, false and 0, or true and 1. |
| `CborSlots.BigEndianRoundTrip` | sirati-nmbl/testing/stateful-bios-host/harness.py:62-66 | Big-endian arguments read back. |
| `CborSlots.Decoder.ReadArgument` | sirati-nmbl/testing/stateful-bios-host/harness.py:59-68 | The four widths, the short form, truncation and the unsupported forms. |
| `CborSlots.Decoder.Item` | sirati-nmbl/testing/stateful-bios-host/harness.py:53-81 | The recursive decoder with its shared cursor agrees with the functional decoding and never leaves the data. |
| `CborSlots.Decoder.Entries` | sirati-nmbl/testing/stateful-bios-host/harness.py:76-81 | The dictionary loop agrees with the functional one. |
| `CborSlots.DecodeState` | sirati-nmbl/testing/stateful-bios-host/harness.py:48-85 | Wrong size, decoding error, not a dictionary, or the value. |
| `NeedleScans.Contains` | sirati-nmbl/testing/scan-private-key.py:23-35 | For any chunks delivered and non-empty needles, true if and only if some needle is a substring of everything delivered. |
| `NeedleScans.WindowSuffices` | sirati-nmbl/testing/scan-private-key.py:30-33 | A needle occurs in what was read plus a chunk exactly when it occurred before or occurs in the kept tail plus the chunk. |
| `NeedleScans.OccursIff` | sirati-nmbl/testing/scan-private-key.py:30-31 | A needle occurs exactly when the data is something before it, the needle, and something after it. |
| `NeedleScans.TailOfWindow` | sirati-nmbl/testing/scan-private-key.py:33 | The kept tail of the window is the tail of everything read. |
| `ResolverHooks.ResolverState.Runs` | sirati-nmbl/lib/rescue/dhcp-hook-rs/main.rs:212-237 | After any sequence of runs, stopped anywhere, the entries on disk are each key's latest unremoved resolver; when the last run that did anything finished, resolv.conf shows exactly them. |
| `ResolverHooks.ResolverState.Apply` | sirati-nmbl/lib/rescue/dhcp-hook-rs/main.rs:212-237 | One run: the entry changes or not, other entries never, and a finished run shows the new entries. |
| `ResolverHooks.ResolverState.WriteEntry` | sirati-nmbl/lib/rescue/dhcp-hook-rs/main.rs:200-210 | What an atomic write leaves at each point it can stop: the directory as it was, the old temporary gone, a partial temporary, or the new contents under the name and no temporary. |
| `ResolverHooks.ResolverState.Render` | sirati-nmbl/lib/rescue/dhcp-hook-rs/main.rs:177-198 | Reads the listed entries in name order and writes them as one. |
| `ResolverHooks.ConfIsUnion` | sirati-nmbl/lib/rescue/dhcp-hook-rs/main.rs:177-198 | The lines written to resolv.conf: one nameserver line for each server of the duplicate-free union, in name order and by first appearance, of all recorded servers; one search line with the union of the search names unless that only repeats the domain; one line with the first domain. |
| `ResolverHooks.ConfIsDetermined` | sirati-nmbl/lib/rescue/dhcp-hook-rs/main.rs:212-237 | resolv.conf depends only on the recorded entries, not on directory order or history. |
| `ResolverHooks.ListingIsUnique` | sirati-nmbl/lib/rescue/dhcp-hook-rs/main.rs:235 | There is one sorted listing of a set of names. |
| `ResolverHooks.KeyWithProtocolIsVisible` | sirati-nmbl/lib/rescue/dhcp-hook-rs/main.rs:88-92 | A key with a non-empty protocol is never taken for an unfinished file. |
| `ResolverHooks.KeyWithoutProtocolCanBeInvisible` | sirati-nmbl/lib/rescue/dhcp-hook-rs/main.rs:92 | With an empty protocol a valid interface name can make the entry invisible to the union. |
| `ResolverHooks.KeyIsAFileName` | sirati-nmbl/lib/rescue/dhcp-hook-rs/main.rs:35-41 | Every key is one proper path component without line breaks. |
| `ResolverHooks.DescribedIsWellFormed` | sirati-nmbl/lib/rescue/dhcp-hook-rs/main.rs:131-158 | Whatever was received, an entry holds only valid domain names and canonical addresses, each once. |
| `ResolverHooks.ActionsAreProper` | sirati-nmbl/lib/rescue/dhcp-hook-rs/main.rs:79-159 | Every action names a proper file, and what it adds reads back as it was. |
| `ResolverHooks.Decide` | sirati-nmbl/lib/rescue/dhcp-hook-rs/main.rs:79-159 | Every branch of a request: nothing when not configured; an error for a bad interface or protocol; otherwise nothing when it is neither up, an advertisement nor down; the key removed when it is down, or when nothing valid came; and otherwise added, with the domain if it is valid, the valid search names (or the domain when there are none) and the valid servers in canonical form, each once and in order of first appearance. |
| `ResolverRequests.Handle` | sirati-nmbl/lib/rescue/dhcp-hook-rs/main.rs:79-237 | One request to its end: after a finished down request, or one with nothing valid, the key is not recorded; after a finished up request with something valid it is recorded as above and every valid server is a nameserver line of resolv.conf; no other entry changes. |
| `ResolverRequests.InterfaceForm` | sirati-nmbl/lib/rescue/dhcp-hook-rs/main.rs:35-41 | Interface names: one to fifteen letters, digits and four signs, not a dot name. |
| `ResolverRequests.ProtocolForm` | sirati-nmbl/lib/rescue/dhcp-hook-rs/main.rs:88-91 | Protocols: letters and digits only, or nothing. |
| `ResolverRequests.DomainForm` | sirati-nmbl/lib/rescue/dhcp-hook-rs/main.rs:43-54 | Domain names: at most 253 bytes without the final dot, labels of 1 to 63 letters, digits and inner dashes between dots. |
| `ResolverRequests.ServerForm` | sirati-nmbl/lib/rescue/dhcp-hook-rs/main.rs:58-69 | Servers: an address, or an IPv6 address with a scope that is an interface name; always in canonical form. |
| `ResolverRequests.BeforeForm` | sirati-nmbl/lib/rescue/dhcp-hook-rs/main.rs:235 | The order of the names: at the first difference the smaller byte, or the end, comes first. |
| `ResolverRequests.EntryForm` | sirati-nmbl/lib/rescue/dhcp-hook-rs/main.rs:161-173 | The text of an entry, its three keywords written out. |
| `ResolverRequests.JoinedForm` | sirati-nmbl/lib/rescue/dhcp-hook-rs/main.rs:167 | Search names stand with one blank between them. |
| `ResolverRequests.GreetingText` | sirati-nmbl/lib/rescue/dhcp-hook-rs/main.rs:195 | The beginning of the first line of resolv.conf. |
| `ResolverRequests.NamesForm` | sirati-nmbl/lib/rescue/dhcp-hook-rs/main.rs:194-195 | The names of the entries follow it with a comma and a blank between them. |
| `ResolverRequests.AddedIsShown` | sirati-nmbl/lib/rescue/dhcp-hook-rs/main.rs:177-198 | Every valid server of a recorded request is a nameserver line of the file that shows it. |
| `ResolverTexts.EntryReadsBack` | sirati-nmbl/lib/rescue/dhcp-hook-rs/main.rs:161-189 | Re-parsing a written entry, anywhere in a text, adds exactly the resolver it was written from. |
| `ResolverTexts.EntryRoundTrip` | sirati-nmbl/lib/rescue/dhcp-hook-rs/main.rs:161-189 | A written entry reads back as its resolver. |
| `ResolverTexts.EntryLineValues` | sirati-nmbl/lib/rescue/dhcp-hook-rs/main.rs:161-173 | The lines of a written entry are one domain line, one search line and one nameserver line for each server, in order, as often as they occur. |
| `ResolverTexts.PushAllIsUnion` | sirati-nmbl/lib/rescue/dhcp-hook-rs/main.rs:71-75 | Pushing uniquely gives a list without repetition, with the same members, in order of first appearance. |
| `ResolverTexts.RenderEntry` | sirati-nmbl/lib/rescue/dhcp-hook-rs/main.rs:161-173 | The rendering loop writes the entry text. |

## Left out

- Cryptography: SHA-512, signatures and their keys are uninterpreted functions and
  predicates. The validator's theorems assume only that they are deterministic; the
  producer's assume that the verifier accepts what the key signs, that the parser
  reads what the encoder writes, and that digests are lower-case hexadecimal.
- BootProducers.Producer.Prepare: loading the private key and refusing one in the Nix
  store; a name that leads nowhere counts as absent, and the digest of a copied file
  is that of the bytes copied.
- Parsing of JSON manifests and of IP addresses, and UTF-8 validity of state slots, are
  function parameters. A transcript line splits into characters and stray bytes by the
  definition in `Utf8`; the loop over `utf8_chunks` works on that split.
- BootAnswers.Judge: the operating system's reason behind a message is not looked at,
  and all texts of the bundle validation count as one message.
- Sockets, peer credentials, request parsing, permissions, ownership, mounts and
  `create_dir_all` with its messages; locks appear only as operations that do not interleave.
- Boot sets: slot directories hold plain files only, directories cost no blocks,
  file sizes are below 2^63, and free space comes from the model's own disk.
- Manifests: a relative path is one plain component; the path check of the source
  tolerates a trailing slash, which its later name comparison rejects anyway.
- `inspect_health`: reads the same links and only reports.
- Receiving: after the framing, the hash, signature and comparison checks of
  `receive` are not modelled; they would add one-branch checks on uninterpreted
  predicates.
- GenerationRoots.GenerationRoot.InstallGeneration: making the private directories and
  removing what an earlier copy left; every member found is a plain file. A generation
  that no sync has covered survives a power cut whole or not at all.
- Generations: ids are opaque to the state machine except for their format; the
  files under an installed generation never change.
- Transcript: `fit`, the kernel-log line shortener, and the sockets of `Sink`.
- SerialReaders.Drain: lossy decoding and trimming inside `emit`, the end-of-file
  and error exits of the loop and the writer half are not modelled.
- CborSlots.DecodeState: exceptions are one error value each; floats, tags and
  indefinite lengths are rejected as in the source.
- NeedleScans.Contains: walking directories, links and opening files; the caller's
  check that needles are not empty is a precondition.
- ResolverHooks.Decide: looking up environment variables, splitting them into words
  and the lifetimes of router-advertisement options come in as the request; a
  removal that fails for another reason than absence leaves the entry.
- ResolverHooks.ResolverState.Listing: the state directory holds plain files only.
- The terminal interfaces, `state.bin` policy, module loading and argument parsing
  are not part of this model.
