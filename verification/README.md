# Heldar, verified

A Dafny model of the parts of Heldar (an on-premises camera appliance) where a mistake opens a barrier, accepts
forged evidence, or drops work without a trace, and proofs of what those parts promise. `dafny verify dfyconfig.toml`
checks everything.

**The entry engine** (`Plates`, `CameraIds`, `Voting`, `EntryEngine`, `TrackMemory`, `Ballots`, `Resolve`, `Gate`,
`EntryProtocol`, `TrackLifetime`). Plate
reads vote per track and frame; a track whose leading plate reaches the threshold becomes a job; a job is classified against
the registry and recorded; a recorded match may pulse a barrier. `EntryEngine` and `Gate` are classes with the source's
fields and loops, each proved against a specification function. `EntryProtocol` interleaves batches, inserts that succeed
or fail, and barrier tasks in every order, with a registry of its own and a possible failure for every lookup, and
proves its theorems over all runs. `BatchIsProcess`, `FailureIsReopen` and `TaskIsAutoOpen` tie the class methods to the
protocol's steps.

**The evidence verifier** (`Bytes`, `StreamView`, `ZipWriter`, `SeekingView`, `HonestArchive`, `EntryNames`, `Verdict`,
`DamagedArchive`).
A hand-written front-to-back ZIP reader must agree with the directory reader before a signature counts. Every loop of the
reader is a method proved against a function on bytes; `ZipWriter` is a small writer, and the round trip relates the two.

**The workers and scripts.** `Levenshtein` (the two-row table), `StrideGate` (the pruned embedding memory), `Supervisor`
(reconciling threads with leased tasks), `Heartbeat` (retries and the liveness deadline), `CameraUrl` and `UrlMask`
(credentials in URLs, and out of logs), `Schemas`, `TypeTranslation`, `ExactTranslation` and `TypeText` (schemas to
client types), `OpenapiDiff` (schema closure and compatibility), `ReleaseGate` (the `needs` graph).

Confidences, seconds and rates are reals, counts are unbounded. Where a hash map or set is iterated, the order is left
open, so a proof covers every order. Databases, devices, decompression, hashing, signatures and JSON parsing are parameters.

## What the code does not promise

Each of these is a lemma or method with a concrete input, beside one that says when the promise does hold.

- The kill-switch is documented to halt all actuation; a failed lookup of it reads as "off"
  (`Gate.KillSwitchHoldsIffRead`).
- A lookup failure in `resolve` can turn another answer into a match (`Resolve.ExpiredVehicleSlipsPast`); which failure
  patterns can is `Resolve.FaultsAdmitIff`. None gets past a block row or an unreadable plate (`Resolve.MatchIsEarned`).
- Data that will not come out of the archive is to be answered MODIFIED. It is answered MALFORMED when the zip library's
  error is none of the three classes the verifier catches, as for a genuine file whose directory record has the encryption
  bit set (`HonestArchive.EncryptedRecordIsMalformed`, `HonestArchive.AlteredRecord`). It is MODIFIED exactly when the
  first entry that will not come out fails with an error that is caught (`SeekingView.LostDataIsModifiedIff`).
- A genuine archive whose directory starts at byte 0x06054B50 is refused (`HonestArchive.OffsetImitatesSignature`), and
  so are one with a deflated empty directory marker (`HonestArchive.DeflatedMarkerRefused`) and one with no file in it
  (`HonestArchive.NoFileRefused`). Exactly which genuine archives are accepted is `HonestArchive.HonestAcceptedIff`, and,
  for those without a comment, `HonestArchive.HonestWithoutComment`.
- The 24-byte descriptor of a genuine streamed ZIP64 entry is taken for one of 16 bytes when its uncompressed size is
  67 324 752 or 33 639 248 bytes, or differs from one of them by a multiple of 2^32 (`ZipWriter.SizeSpellsRecord`), and
  stepped over whole exactly if not (`ZipWriter.WideDescriptorIff`).
- `mask_url` is documented to mask every URL. A scheme nested in an open authority is stepped over
  (`UrlMask.NestedSchemeIsMissed`), and a login with a slash, blank or quote in it is cut there (`UrlMask.SlashIsShown`).
  For every text in front and every login, it hides the login exactly outside these two families (`UrlMask.HiddenIff`):
  of a chain of schemes with nothing to end an authority or a login between them, every second one is stepped over
  (`UrlMask.ReachedIff`).
- A reconciliation is to leave the listed tasks running and no other. A thread start that raises leaves a runner filed that
  never began; if its task is next listed changed, the reconciliation raises at the join of that runner, starts nothing, and
  does so in every later poll that lists it changed (`Supervisor.WedgeInTwoPolls`, `Supervisor.Supervisor.PollWhileStuck`).
  It raises there exactly if such a runner is filed (`Supervisor.Supervisor.Reconcile`), and the shutdown keeps its runners
  exactly if one that never began is among them (`Supervisor.Supervisor.ShutdownAll`).
- The TypeScript text of a list with nullable items is read as a union with an array of nulls
  (`TypeText.ListOfNullableIsMisread`); for schema names that are no words of the language, the text is right exactly when
  there is no such list (`TypeText.TypeScriptAgreesIff`).
- Four kinds of schema are accepted and mistyped: a named combination (`TypeTranslation.NamedCombinationIsMistyped`), a
  named structure without a type (`TypeTranslation.UntypedStructureIsMistyped`), a map without a type
  (`TypeTranslation.UntypedMapIsMistyped`), and an object that mixes properties with a map
  (`TypeTranslation.MixedObjectIsMistyped`). Without these, and without a name that is itself a reference, every admitted
  value has the emitted type (`TypeTranslation.TranslationIsSound`). A combination without a null branch is made nullable
  (`ExactTranslation.LoneBranchGainsNull`); where nothing is gained or lost is `ExactTranslation.TranslationIsExact`.
- "No breaking change" is not transitive (`OpenapiDiff.CompatibleIsNotTransitive`; exactly when it is:
  `OpenapiDiff.CompatibleInTwoStepsIff`), and the script's own list names a lost enum value as breaking, which it does not
  look at (`OpenapiDiff.LostEnumValueIsMissed`).

## Model

| member | source | states |
|---|---|---|
| Plates.NormalizedIsKey | crates/heldar-entry/src/anpr.rs:32-37 | normalising lands in `0-9A-Z`, leaves every key alone, and is idempotent |
| Plates.SeparatorsVanish | crates/heldar-entry/src/anpr.rs:32-37 | separators and letter case never split one plate into two lookup keys |
| CameraIds.Slugify | crates/heldar-kernel/src/util.rs:200-218 | the loop mints the slug of any text, and what it mints is a slug: lower-case letters, digits and single inner underscores |
| CameraIds.SlugIsFixed | crates/heldar-kernel/src/util.rs:200-218 | a slug is its own slug |
| Voting.Leader | crates/heldar-entry/src/anpr.rs:831-851 | in any iteration order, the elected plate is eligible and no eligible plate outranks it; none is elected exactly when none is eligible |
| Voting.WinningPlate | crates/heldar-entry/src/anpr.rs:831-851 | a plausible plate wins over every implausible one; an implausible winner means there was no plausible read |
| Voting.TiedWinnersAgree | crates/heldar-entry/src/anpr.rs:831-851 | whichever tied plate the map order elects, count, summed and average confidence and plausibility are the same |
| Voting.WinnerExists | crates/heldar-entry/src/anpr.rs:831-851 | every non-empty tally has a winner, so a voted track always yields a job |
| EntryEngine.BuildJob | crates/heldar-entry/src/anpr.rs:864-891 | no job exactly for a track without votes; a job carries a winning plate with its own tally and the track's identity |
| EntryEngine.AnprEngine.Process | crates/heldar-entry/src/anpr.rs:186-336 | one locked batch: the votes, then one job for each due track and no other, threshold jobs marked committed before the prune drops the stale tracks |
| TrackMemory.ProcessRemembers | crates/heldar-entry/src/anpr.rs:186-336 | one locked batch told from its detections: a track is in memory afterwards exactly if the frame read it or it was read in the last thirty seconds, seen now or when it was; source, producer, direction and versions are the last said, each attribute the surest and of equals the first, each plate's first read of the frame counts once by its worth, and every committed or leaving track has one job that carries just that |
| TrackMemory.LoopProjects | crates/heldar-entry/src/anpr.rs:203-295 | the loop over the frame, seen at any one key, is the fold of that track's own reads from the track as it was or as it is opened |
| TrackMemory.PlatesAreCounted | crates/heldar-entry/src/anpr.rs:259-275 | a plate's first read on a track adds its worth, once for a frame, its clamped confidence times that, and the text it was read as; no other plate's standing changes |
| TrackMemory.SurestIsKept | crates/heldar-entry/src/anpr.rs:276-284 | of the earlier observation and all the frame offers, the surest non-blank text is kept, trimmed; ties go to the first |
| TrackLifetime.LastSeenIsLastRead | crates/heldar-entry/src/anpr.rs:249 | in every run the time a live track was last seen is that of the last batch with a detection under its key |
| TrackLifetime.DroppedIffUnread | crates/heldar-entry/src/anpr.rs:315-335 | in every run a batch drops a live track exactly if it does not read it and the last batch that did is more than thirty seconds older |
| TrackLifetime.RemembersTheLastHalfMinute | crates/heldar-entry/src/anpr.rs:315-335 | with a clock that does not run backwards, the engine's memory is at every point of every run exactly the tracks read in the last thirty seconds |
| EntryEngine.AnprEngine.Vote | crates/heldar-entry/src/anpr.rs:203-295 | the detection loop equals the fold of single reads over the frame, each (track, plate) counted once |
| EntryEngine.AnprEngine.Read | crates/heldar-entry/src/anpr.rs:204-294 | one detection: which track it finds or opens, whether it votes, what it refreshes |
| EntryEngine.AnprEngine.CommitReady | crates/heldar-entry/src/anpr.rs:300-313 | exactly the uncommitted tracks at the threshold get an actuating job and the committed flag |
| EntryEngine.AnprEngine.Prune | crates/heldar-entry/src/anpr.rs:319-336 | exactly the tracks older than the TTL go; those uncommitted with a vote leave a job, and none of those jobs may actuate |
| EntryEngine.AnprEngine.Reopen | crates/heldar-entry/src/anpr.rs:339-353 | the flag is cleared only while the key still belongs to the failed job's uid |
| EntryEngine.JoinJobs | crates/heldar-entry/src/anpr.rs:300-336 | the scan's jobs and the prune's jobs together are one per due track: neither step repeats or misses what the other handles |
| Ballots.TallyMeansFrames | crates/heldar-entry/src/anpr.rs:203-295 | a tally of `n` means a camera-native read or votes from `n` different frames |
| Ballots.AbsorbAllKeeps | crates/heldar-entry/src/anpr.rs:203-295 | over a whole frame the live tallies stay equal to the votes cast, per uid and plate, and no frame votes twice |
| Ballots.EveryReadVotes | crates/heldar-entry/src/anpr.rs:203-295 | every plate read of a frame has its ballot under its own key and plate, however often it repeats |
| Ballots.KeyDeterminesCamera | crates/heldar-entry/src/anpr.rs:222-229 | a track key names one camera among those with minted ids |
| Ballots.SharedKeyIff | crates/heldar-entry/src/anpr.rs:222-229 | of arbitrary text, not of ids the kernel mints: two strings share a track key exactly if they are equal or one begins with the other and a vertical bar |
| Resolve.CurrentPass | crates/heldar-entry/src/anpr.rs:644-659 | the visitor pass used is current and has the latest end of all current ones; none is used exactly when none is current |
| Resolve.MatchIsEarned | crates/heldar-entry/src/anpr.rs:512-743 | under every pattern of failed lookups, and with the registry changing between them, a match has a plausible plate, no active block row when that was looked up, and a row that entitled it when that was |
| Resolve.StatusIff | crates/heldar-entry/src/anpr.rs:512-743 | with every lookup answering, status and source are decided by the rows: nothing for an unreadable plate, a block row before anything else, matched exactly when the deciding row clears the plate, unmatched exactly when nothing is known of it; a block stays one under any other failure |
| Resolve.AttributesDecide | crates/heldar-entry/src/anpr.rs:588-642 | a registered vehicle in its time, without an alert, is matched exactly if color and type are each not given on one side, blank, or the same letters up to case with any whitespace around them, and an exception otherwise |
| Resolve.AnswerIsFiled | crates/heldar-entry/src/anpr.rs:512-743 | only a match passes on its own; everything else is pending, a block with its row's severity or "critical" |
| Resolve.ArrivalIsCheckedIn | crates/heldar-entry/src/anpr.rs:643-673 | exactly the visitor pass that covers the instant with the latest end is checked in, when the resolution comes to it, it was not yet, the vehicle is not leaving and both statements go through; no other row and nothing else of that row changes |
| Resolve.FaultsAdmitIff | crates/heldar-entry/src/anpr.rs:525-743 | the patterns of failed lookups that can turn some other answer into a match, exactly, with a registry for each way past |
| Resolve.ExpiredVehicleSlipsPast | crates/heldar-entry/src/anpr.rs:565-590 | a concrete expired registration that matches when its lookup fails |
| Resolve.CheckInIsInvisible | crates/heldar-entry/src/anpr.rs:660-671 | the automatic check-in changes no later classification of any job at any time under any failures |
| Resolve.ResolveAgain | crates/heldar-entry/src/anpr.rs:512-743 | resolving again at the same instant after the check-in gives the same result |
| Gate.GateActuator.AutoOpenWith | crates/heldar-entry/src/gate.rs:93-125 | one pulse and one event row exactly behind a match, a readable enabled policy and a kill-switch not read as on; otherwise nothing changes |
| Gate.GateActuator.ManualOpen | crates/heldar-entry/src/gate.rs:130-163 | the manual path ignores `enabled`, still needs a policy and yields to the kill-switch; every outcome of the device is recorded and reported |
| Gate.KillSwitchHoldsIffRead | crates/heldar-entry/src/gate.rs:52-59 | turned on, the switch keeps every automatic and manual open from pulsing, whatever status and policy, exactly when its row can be read; unread, all go through as if it were off |
| EntryProtocol.BatchIsProcess | crates/heldar-entry/src/anpr.rs:186-336 | the class method refines the protocol's batch step |
| EntryProtocol.FailureIsReopen | crates/heldar-entry/src/anpr.rs:339-353 | the class method run after a failed insert refines the protocol's step |
| EntryProtocol.TaskIsAutoOpen | crates/heldar-entry/src/gate.rs:93-125 | the actuator's guard chain refines the barrier task: it commands the relay of the event's camera exactly when the protocol pulses |
| EntryProtocol.RunKeepsInv | crates/heldar-entry/src/anpr.rs:192-354 | the invariant of every reachable state: uids, keys, tallies, open jobs, attempts and barrier tasks agree, for any interleaving |
| EntryProtocol.AtMostOneEvent | crates/heldar-entry/src/anpr.rs:192-354 | no track instance is ever recorded twice, whatever is pruned, reused, retried or concurrent |
| EntryProtocol.FailureReopensItsOwn | crates/heldar-entry/src/anpr.rs:339-353 | in every reachable state a failing insert changes no other instance, and leaves its own, if still live, uncommitted with no job open |
| EntryProtocol.NoVehicleLost | crates/heldar-entry/src/anpr.rs:300-336 | every instance that got a vote and left the map had a commit attempted; no attempt is without a vote |
| EntryProtocol.PulseIsEarned | crates/heldar-entry/src/anpr.rs:203-335 | every automatic pulse of any run goes to the camera of one attempt whose plate, by the ballots cast until its job was built, had won with a native read or enough separate frames, all from that camera, and which matched, unblocked and entitled, under an enabled policy |
| EntryProtocol.OnePulsePerVehicle | crates/heldar-entry/src/gate.rs:93-125 | two automatic pulses never belong to the same track instance |
| EntryProtocol.BelowThresholdIsReviewed | crates/heldar-entry/src/anpr.rs:319-336 | an event below the threshold is for review and never reaches a barrier task |
| EntryProtocol.VotesFromOwnCamera | crates/heldar-entry/src/anpr.rs:222-229 | in every run over cameras with minted ids, all votes behind an attempt came from its own camera |
| StreamView.Zip64CompressedSize | scripts/verify_evidence_bundle.py:500-513 | the scan of the extra field finds the first usable ZIP64 size, for all bytes, truncated records included |
| StreamView.Inflate | scripts/verify_evidence_bundle.py:440-460 | chunked feeding consumes exactly what one decompression of the whole rest would, and fails exactly when it would |
| StreamView.ReadStored | scripts/verify_evidence_bundle.py:461-472 | chunked reading yields the declared bytes, or fails exactly when the file is too short |
| StreamView.ProbeDescriptor | scripts/verify_evidence_bundle.py:481-493 | the descriptor width taken is the first of 16, 24, 12, 20 that lands on a record |
| StreamView.MembersAdvance | scripts/verify_evidence_bundle.py:401-497 | every entry moves the reader forward by a whole header, so the front-to-back pass terminates on every file |
| StreamView.StreamView | scripts/verify_evidence_bundle.py:401-497 | the loop equals the recursive reading of the file: the view, the end offset or the first problem |
| ZipWriter.Zip64Found | scripts/verify_evidence_bundle.py:500-513 | the size is found behind any other well-formed extra records |
| ZipWriter.FlagsRead | scripts/verify_evidence_bundle.py:407-422 | bit 3 and bit 11 of the flag word are read as written, among any other bits |
| ZipWriter.EntryReads | scripts/verify_evidence_bundle.py:406-493 | one written entry, stored or deflated, with or without ZIP64, with no descriptor or one of 16 or 24 bytes, is read back in place |
| ZipWriter.WideDescriptorIff | scripts/verify_evidence_bundle.py:481-493 | a descriptor of 24 bytes before a record is stepped over whole exactly if the low half of its uncompressed size does not spell a record, and taken for one of 16 bytes otherwise |
| ZipWriter.SizeSpellsRecord | scripts/verify_evidence_bundle.py:481-493 | exactly the sizes that leave 67 324 752 or 33 639 248 modulo 2^32 spell one |
| ZipWriter.RoundTrip | scripts/verify_evidence_bundle.py:401-513 | for every archive of distinct names the reader ends at the directory having seen exactly the written files and their hashes |
| ZipWriter.RepeatIsRefused | scripts/verify_evidence_bundle.py:425-426 | a second member under the name of an earlier file is refused, wherever it hides and whatever bytes follow |
| SeekingView.SeekAll | scripts/verify_evidence_bundle.py:345-357 | the directory reader's map, or the state of the first entry whose data will not come out: MODIFIED for an error that is caught, MALFORMED for one that is not |
| SeekingView.SeekOutcome | scripts/verify_evidence_bundle.py:345-357 | there is a map exactly if every entry but the markers comes out, and otherwise the first that does not decides |
| SeekingView.LostDataIsModifiedIff | scripts/verify_evidence_bundle.py:85-92 | of a file the front-to-back reader accepts, lost data is answered MODIFIED exactly when the first entry that will not come out fails with one of the three caught error classes, and MALFORMED exactly when it does not |
| SeekingView.RFindFrom | scripts/verify_evidence_bundle.py:516-529 | the last occurrence of the signature, or none anywhere |
| SeekingView.RejectConcatenatedArchive | scripts/verify_evidence_bundle.py:306-385 | the agreement check: which of its refusals, in its order, or none; an error of the zip library that nothing catches counts as the MALFORMED it ends in |
| DamagedArchive.DamageIsJudged | scripts/verify_evidence_bundle.py:401-497 | honest entries, then a damaged one, then anything: MODIFIED if the deflated data is corrupt or cut short, MALFORMED for a name that does not decode or repeats, a missing ZIP64 record, stored data cut short or sized only by its descriptor, another method, and a descriptor that leads to no record |
| DamagedArchive.VerifyDamaged | scripts/verify_evidence_bundle.py:55-303 | the whole verifier answers so, whatever the directory lists |
| SeekingView.SeekHolds | scripts/verify_evidence_bundle.py:345-357 | with distinct names the map holds every non-marker entry under its own hash, and nothing else |
| HonestArchive.HonestAcceptedIff | scripts/verify_evidence_bundle.py:306-385 | an honestly written archive, with any comment, passes the agreement check exactly if it holds a file, its empty directory markers are stored, and the last copy of the signature in its end record heads something that ends the file |
| HonestArchive.HonestWithoutComment | scripts/verify_evidence_bundle.py:306-385 | without a comment: exactly if it holds a file, stores its markers, and its record's fields do not spell the signature |
| HonestArchive.RecordDecides | scripts/verify_evidence_bundle.py:516-529 | the end-record check depends on the record alone, whatever stands before it |
| HonestArchive.UnimitatedHolds | scripts/verify_evidence_bundle.py:516-529 | with any comment, a record whose signature is not imitated passes |
| HonestArchive.DeflatedMarkerRefused | scripts/verify_evidence_bundle.py:345-357 | an empty directory entry written deflated makes the two readers disagree |
| HonestArchive.AlteredRecord | scripts/verify_evidence_bundle.py:349-356 | a genuine archive one of whose directory records was altered so that its data will not come out: MODIFIED if the library's error is caught, MALFORMED if not |
| HonestArchive.EncryptedRecordIsMalformed | scripts/verify_evidence_bundle.py:349-356 | a concrete archive whose only entry the library refuses as encrypted is answered MALFORMED |
| HonestArchive.NoFileRefused | scripts/verify_evidence_bundle.py:495-497 | an archive of markers only, or of nothing, is refused |
| HonestArchive.RefusedIffImitated | scripts/verify_evidence_bundle.py:516-529 | an archive without a comment fails the end-record check exactly when its fields spell the signature |
| HonestArchive.OffsetImitatesSignature | scripts/verify_evidence_bundle.py:516-529 | a directory offset of 0x06054B50 does |
| EntryNames.RejectUnsafeNames | scripts/verify_evidence_bundle.py:532-567 | accepts exactly the lists of distinct clean names, and reports the first offender with its own reason |
| EntryNames.CheckName | scripts/verify_evidence_bundle.py:541-567 | the reasons in their order, component by component |
| EntryNames.CleanIff | scripts/verify_evidence_bundle.py:541-567 | a name is let through exactly if it is plain components between single slashes, with at most a slash at the end, no blank at either end, no drive letter, backslash or control character |
| EntryNames.AcceptedNameIsLiteral | scripts/verify_evidence_bundle.py:532-567 | walking an accepted name from the root visits its own components and never leaves the root |
| EntryNames.PathsCollideOnlyAsDirectory | scripts/verify_evidence_bundle.py:532-567 | two accepted names land on one path exactly when they differ at most by a trailing slash |
| EntryNames.FilesExtractApart | scripts/verify_evidence_bundle.py:532-567 | the files of an accepted list extract to distinct paths under the root |
| Verdict.DocumentsMean | scripts/verify_evidence_bundle.py:128-158 | the documents are accepted exactly when entries of their own names hold them, as stored bytes that parse to objects in the supported format; no format or another scalar one is unsupported |
| Verdict.SignerIff | scripts/verify_evidence_bundle.py:160-192 | a key is accepted exactly if the signature entry names Ed25519, decodes to 32 bytes of it and a signature that verifies over the stored manifest, and states no other hash; a rejected signature or another stated hash is altered |
| Verdict.FilesStateIff | scripts/verify_evidence_bundle.py:218-254 | malformed, modified, missing or fine by whether some file cannot be judged, fails its demanded hash, or is absent |
| Verdict.SuppliedIff | scripts/verify_evidence_bundle.py:283-297 | a supplied key matches by its own text, a supplied id by the digest of the signer's key, up to blanks around them, and nothing supplied matches nothing |
| Verdict.CheckNames | scripts/verify_evidence_bundle.py:200-216 | passes exactly when every entry is listed, metadata, or an empty directory that holds a listed file |
| Verdict.CheckFiles | scripts/verify_evidence_bundle.py:218-254 | an unusable hash or an entry the library refuses with an uncaught error before altered content before absence, over every listed file; it never reports on nothing |
| Verdict.CheckContents | scripts/verify_evidence_bundle.py:200-272 | no complaint exactly when names, hashes and the hash listing all agree; MISSING and MODIFIED exactly when, a refused hash listing being neither |
| Verdict.Verify | scripts/verify_evidence_bundle.py:55-303 | each verdict but MALFORMED, exactly and in terms of what the bundle holds: VALID for a consistent bundle signed by the key the operator supplied, UNKNOWN KEY for one signed by any other or with none supplied, MISSING for one that lacks a listed file and alters none, MODIFIED for lost data, a rejected signature, or content, hash listing or key id that contradict what was signed, UNSUPPORTED for another format; MALFORMED is the rest, uncaught errors of the zip library included |
| Verdict.ValidIsSound | scripts/verify_evidence_bundle.py:55-385 | read front to back, a VALID bundle holds only the manifest's files, each under its signed hash, and the metadata files; the stored manifest is the one the key signed, and the key is the supplied one by text or id |
| Levenshtein.Levenshtein | apps/ai/anpr_bench.py:207-218 | the rolling two rows compute the recursive edit distance |
| Levenshtein.DistanceIsLeastCost | apps/ai/anpr_bench.py:207-218 | some edit script attains the distance and none is cheaper |
| Levenshtein.Symmetric | apps/ai/anpr_bench.py:207-218 | distance is symmetric |
| Levenshtein.ZeroIffEqual | apps/ai/anpr_bench.py:207-218 | zero exactly on equal strings |
| Levenshtein.Triangle | apps/ai/anpr_bench.py:207-218 | the triangle inequality |
| Levenshtein.Bounds | apps/ai/anpr_bench.py:207-218 | between the difference of the lengths and the longer length |
| Levenshtein.AccuracyRange | apps/ai/anpr_bench.py:251-252 | a row's accuracy lies in [0, 1] and is 1 exactly on an exact match |
| Levenshtein.ScoreRows | apps/ai/anpr_bench.py:241-252 | exact <= read <= rows, exact <= summed accuracy <= rows, and full accuracy exactly when every row is exact |
| StrideGate.Configure | apps/ai/worker.py:1426-1450 | however the options are set, the idle horizon is at least twice the stride and the refresh |
| StrideGate.EmbeddingAnalyzer.PruneStrideGate | apps/ai/worker.py:1566-1573 | forgets exactly the tracks idle beyond the horizon |
| StrideGate.EmbeddingAnalyzer.Analyze | apps/ai/worker.py:1470-1564 | one frame: the items embedded and the memory left, which advances only after the encoder answered |
| StrideGate.PruningIsInvisible | apps/ai/worker.py:1426-1573 | over every sequence of frames the pruned gate embeds exactly what one with unlimited memory embeds |
| StrideGate.EmbeddedIffWanted | apps/ai/worker.py:1470-1564 | of a frame that encodes exactly those boxes are embedded, in order, that are tracked, large enough, and not embedded before, or embedded a stride ago and moved since or due for a refresh where still ones are suppressed; of any other frame none |
| StrideGate.EmbedsAStrideApart | apps/ai/worker.py:1470-1573 | embeds of one track from different frames are at least a stride apart |
| StrideGate.ParkedObjectRefreshes | apps/ai/worker.py:1470-1564 | a still object is embedded again once the refresh is due, whatever was pruned |
| Supervisor.LastListedWins | apps/ai/worker.py:2053 | of several tasks listed under one id the last is reconciled |
| Supervisor.SignatureIff | apps/ai/worker.py:385-394 | two tasks have one signature exactly if type, profile, width, URL and configuration are the same and the rates round to the same four decimals |
| Supervisor.Supervisor.StopStale | apps/ai/worker.py:2055-2074 | every runner looked at is stopped and forgotten exactly if its task is gone or changed; the phase ends early at a runner that never began and is to be restarted, which is stopped but stays filed, and only there |
| Supervisor.Supervisor.StartMissing | apps/ai/worker.py:2076-2081 | kept runners are untouched, new ones run their listed task; which constructor or start ended it, and that a start that raised leaves its runner filed and never begun |
| Supervisor.Supervisor.DropDead | apps/ai/worker.py:2083-2086 | exactly the ended threads are forgotten |
| Supervisor.Supervisor.Fill | apps/ai/worker.py:2076-2086 | when only current runners are left: afterwards every listed task has a live runner, the kept one or a fresh one, unless its thread ended or a launch raised |
| Supervisor.Supervisor.Reconcile | apps/ai/worker.py:2052-2086 | it raises at a join exactly if a filed runner never began and its task is listed changed; then nothing is started, that runner stays filed, and those behind it are as they were. Otherwise an unchanged live task keeps its runner, every other listed task gets a fresh one until a launch raises, none runs unlisted or outdated, and when nothing raised a task goes unserved only if its own thread ended; a working thread nobody told to stop is always the one filed under its id |
| Supervisor.Supervisor.PollWhileStuck | apps/ai/worker.py:2055-2081 | while every answer lists the task of a runner that never began as changed, no poll starts anything and the runner stays filed |
| Supervisor.WedgeInTwoPolls | apps/ai/worker.py:2066-2081 | one failed start and one changed listing: the second poll raises, and the other task it lists is not started |
| Supervisor.Supervisor.ShutdownAll | apps/ai/worker.py:2201-2210 | every runner ever started is stopped or dead; the runners are forgotten exactly if all that are filed were started, otherwise the joins raise and they stay |
| Supervisor.Supervisor.Run | apps/ai/worker.py:2181-2199 | after any sequence of failing or answering polls, each answer reconciled to the end or aborted, every runner ever started is stopped or dead; if no start raised, no reconciliation ends at a join and the shutdown completes with no runner filed, and it fails to only with one filed that never began |
| Heartbeat.Request | apps/ai/worker.py:1668-1714 | at most retries + 1 calls, all but the last unanswered or answered 5xx; the last settles the outcome by its code alone, a broken exchange leaving at once; the sleeps are the jittered capped exponentials and the whole stays within the call budget |
| Heartbeat.BudgetIsTheWorstCase | apps/ai/worker.py:2141-2149 | the backoff sum covers every draw of the jitter, and is reached by the largest draws and slowest calls |
| Heartbeat.SilenceCostsTheBudget | apps/ai/worker.py:2141-2146 | a kernel that never answers, with the largest draws, uses up the call budget to the last moment |
| Heartbeat.DeadlineHasRoom | apps/ai/worker.py:2123-2149 | the deadline leaves room for a join, and for two exhausted calls and a wait; it is a minute, or just what two calls and two intervals take |
| Heartbeat.DelaysGrow | apps/ai/worker.py:1703 | delays never shrink from one attempt to the next |
| Heartbeat.DelaysDouble | apps/ai/worker.py:1703 | the first delay is the base, each later one twice the one before, and none is above the cap |
| Heartbeat.BeatingLoop.PollTasks | apps/ai/worker.py:2088-2103 | a poll costs at most two call budgets, and one unless it finds out that the kernel has no leases, which takes a 404 and is never forgotten; tasks come from an answer that parses |
| Heartbeat.BeatingLoop.WaitNextPoll | apps/ai/worker.py:2105-2121 | the wait ends within the interval; early only after a shutdown, in the half second it comes in, or a renewal that was asked for and is then consumed, by the end of the half second in which it was asked for |
| Heartbeat.BeatingLoop.Reconcile | apps/ai/worker.py:2055-2081 | a beat per runner looked at, so only constructions are left uncounted |
| Heartbeat.BeatingLoop.Run | apps/ai/worker.py:2123-2199 | however the kernel behaves, no two beats are further apart than the deadline promised, constructions aside |
| CameraUrl.EncodeUserinfo | crates/heldar-kernel/src/camera_url.rs:17-29 | the loop emits the encoding of the bytes |
| CameraUrl.EncodeRoundTrip | crates/heldar-kernel/src/camera_url.rs:17-29 | percent-decoding undoes it for every byte string |
| CameraUrl.EncodedAlphabet | crates/heldar-kernel/src/camera_url.rs:17-29 | only unreserved characters and `%` come out |
| CameraUrl.CredentialsAreRecovered | crates/heldar-kernel/src/camera_url.rs:79-97 | splitting a built URL at the first `@` and then the first `:` gives back username and password, in front of any host |
| UrlMask.MaskUrl | crates/heldar-kernel/src/camera_url.rs:180-209 | the loop ends on all text and equals the recursive mask |
| UrlMask.MaskIsIdempotent | crates/heldar-kernel/src/camera_url.rs:180-209 | masking a masked text changes nothing |
| UrlMask.ReachedIsMasked | crates/heldar-kernel/src/camera_url.rs:186-208 | a login without slash, blank or quote behind a scheme the scan reaches is replaced by `***@` whole, an `@` in the password included, in any surrounding text |
| UrlMask.UnsealedIsShown | crates/heldar-kernel/src/camera_url.rs:193-207 | of any other reached login, what follows its last `@` before the first slash, blank or quote is shown, all of it if there is none |
| UrlMask.SlashIsShown | crates/heldar-kernel/src/camera_url.rs:193-207 | a concrete password with a slash that stays readable |
| UrlMask.UnreachedIsShown | crates/heldar-kernel/src/camera_url.rs:204-207 | a login behind a scheme the scan steps over stands in the result unchanged |
| UrlMask.ReachedIff | crates/heldar-kernel/src/camera_url.rs:180-209 | the scan reaches a scheme exactly if the number of schemes in front of it that nothing closes, counted back from it, is even |
| UrlMask.HiddenIff | crates/heldar-kernel/src/camera_url.rs:180-209 | for every text in front and every login: nothing of the login is revealed exactly if it is empty, or an even number of open schemes stand in front of its own and it has no slash, blank or quote |
| UrlMask.FreshUrlIsReached | crates/heldar-kernel/src/camera_url.rs:180-209 | a URL after whitespace or a quote is always reached, whatever the text before it holds |
| UrlMask.NestedSchemeIsMissed | crates/heldar-kernel/src/camera_url.rs:204-207 | a concrete nested scheme whose password stays readable |
| UrlMask.StreamUrlIsMasked | crates/heldar-kernel/src/camera_url.rs:49-98 | masked stream URLs are equal for any two logins, on every host, vendor and override |
| UrlMask.ReplayUrlIsMasked | crates/heldar-kernel/src/camera_url.rs:116-142 | masked replay URLs likewise |
| TypeTranslation.TranslationIsSound | scripts/gen_clients.py:94-158 | every value an accepted schema admits inhabits the type it is translated to |
| TypeTranslation.NameIsSound | scripts/gen_clients.py:213-233 | every value a named schema admits inhabits its declaration: enumeration, alias or structure |
| TypeTranslation.ReferenceIsNamed | scripts/gen_clients.py:43-103 | a local reference is translated to what stands behind its last slash, if the document defines that, and refused otherwise |
| TypeTranslation.OtherReferences | scripts/gen_clients.py:43-103 | an empty reference, or a local one that ends in a slash, is taken for none; one that is not local is refused |
| TypeTranslation.CombinationIff | scripts/gen_clients.py:105-113 | a combination has a type exactly if one branch of it is not just null and that branch has one, and it is that type made optional |
| TypeTranslation.UnionIs | scripts/gen_clients.py:115-121 | a list of types has a type exactly if one of them, once, is not null, and it is the optional of what the schema has with that type alone |
| TypeTranslation.NamedAlias | scripts/gen_clients.py:217-226 | a name given to a schema of a type other than object stands for that type |
| TypeTranslation.NamedCombinationIsMistyped | scripts/gen_clients.py:217-233 | a named combination is declared as an object it does not describe |
| TypeTranslation.MixedObjectIsMistyped | scripts/gen_clients.py:140-153 | a map with a property of its own loses the property's type |
| TypeTranslation.UntypedMapIsMistyped | scripts/gen_clients.py:140-153 | a map without a type admits numbers and is typed as an object |
| TypeTranslation.UntypedStructureIsMistyped | scripts/gen_clients.py:213-233 | a named structure without a type admits strings and is declared as an object |
| ExactTranslation.NothingIsLost | scripts/gen_clients.py:94-158 | on schemas that use no keyword a client type cannot express, a value inhabits the emitted type only if the schema admits it |
| ExactTranslation.TranslationIsExact | scripts/gen_clients.py:94-158 | there schema and type hold the same values: the translation preserves meaning both ways |
| ExactTranslation.LoneBranchGainsNull | scripts/gen_clients.py:107-113 | a combination without a null branch is made nullable all the same |
| TypeText.RenderReads | scripts/gen_clients.py:125-164 | each rendering is read by the type grammar as its own tree, with nothing of it left over and nothing of the context taken in |
| TypeText.PythonAndRustAgree | scripts/gen_clients.py:94-164 | the Python and Rust texts both denote the translated type |
| TypeText.TypeScriptAgreesIff | scripts/gen_clients.py:139 | the TypeScript text denotes it, up to its one number type, exactly when no list has nullable items |
| TypeText.ListOfNullableIsMisread | scripts/gen_clients.py:139 | the text emitted for a list of nullable strings, and its reading as a string or an array of nulls |
| TypeText.TranslationIsSized | scripts/gen_clients.py:127-138 | tuples have one to eight elements |
| OpenapiDiff.AddRefs | scripts/openapi_diff.py:55-66 | the recursion adds exactly the schemas named anywhere inside a node |
| OpenapiDiff.RefsInIff | scripts/openapi_diff.py:55-66 | a schema is collected exactly if some object inside the node, however deep, refers to it by the common prefix and its name |
| OpenapiDiff.FieldsIff | scripts/openapi_diff.py:103-109 | the fields a schema demands and declares are those of the last "required" list and "properties" table of its object |
| OpenapiDiff.Close | scripts/openapi_diff.py:91-99 | the worklist ends with the least closed set around the seed, which is the set of schemas some chain of references reaches |
| OpenapiDiff.SchemaRoles | scripts/openapi_diff.py:69-101 | the two role sets are what request bodies and responses reach |
| OpenapiDiff.Compare | scripts/openapi_diff.py:115-188 | the lists hold every breaking and every additive change and no other; exit 0 exactly when nothing breaks; the version line only on top of a break |
| OpenapiDiff.CompatibleIsKeeping | scripts/openapi_diff.py:122-169 | no breaking change means: routes, capabilities, declared scopes, schemas and properties stay, and nothing callers send becomes stricter |
| OpenapiDiff.CompatibleInTwoStepsIff | scripts/openapi_diff.py:122-169 | two compatible steps compose exactly when no schema tightened by the first and left so is sent by callers at the end |
| OpenapiDiff.CompatibleWhileRolesStay | scripts/openapi_diff.py:69-101 | so compatibility is transitive while response-only schemas stay response-only |
| OpenapiDiff.CompatibleWithItself | scripts/openapi_diff.py:122-169 | compatibility is reflexive |
| OpenapiDiff.OldPayloadsStillServe | scripts/openapi_diff.py:146-155 | a payload with every field the old schema required satisfies the new one |
| OpenapiDiff.CompatibleIsNotTransitive | scripts/openapi_diff.py:146-160 | three documents, two compatible steps, one breaking whole |
| OpenapiDiff.LostEnumValueIsMissed | scripts/openapi_diff.py:12-19 | in any document, a schema whose enumeration alone changed, however, is compatible both ways and nothing is reported |
| ReleaseGate.SearchIsExact | scripts/check_release_gated.py:82-87 | on every graph, cyclic or with dangling names, the search finds a gate exactly when a path of `needs` leads to one |
| ReleaseGate.PathIsFollowed | scripts/check_release_gated.py:82-87 | giving up on a job met before loses no path |
| ReleaseGate.CheckWorkflow | scripts/check_release_gated.py:55-95 | the problems of one workflow, all of them and no other: no job with a gate step, a gate without leave to read, a gate whose first such step says "false" in any case and padding, a job no chain of `needs` leads from to a gate |
| ReleaseGate.Check | scripts/check_release_gated.py:43-97 | the report is empty exactly if the action exists and both publishing workflows are there, have a gate, and let every job wait for a gate, all of which can read and do block |

## Left out

- EntryEngine.AnprEngine.Vote: the 32-bit vote counter's wrap-around and the rounding of floating-point confidence sums, since counts are naturals and confidences reals.
- EntryProtocol.RunKeepsInv: a `process` future cancelled between two of its jobs, which would leave a committed track without its event.
- Resolve.CurrentPass: which of two visitor passes with the same end the database returns; the model takes the first row.
- ZipWriter.RoundTrip: descriptors of 12 and 20 bytes, whose width probe looks into the next record's fields; the reader's handling of them is modelled in `StreamView.ProbeDescriptor`.
- StreamView.StreamView: decompression, hashing and name decoding are parameters with the laws of a self-delimiting decoder.
- Verdict.Verify: JSON parsing, base64, Ed25519 through openssl, the zip library (what it lists, and what comes of reading each entry) and the printed report are parameters; argument parsing and exit codes are not modelled.
- Levenshtein.ScoreRows: rounding of the report, and the make-and-model columns.
- StrideGate.EmbeddingAnalyzer.Analyze: the detector, the encoder and pixel cropping, of which only the outcome matters to the gate.
- Supervisor.Supervisor.Reconcile: which of several runners that never began comes first in the dictionary, how long joins take (see `Heartbeat`), and the text by which two configurations are compared.
- Heartbeat.BeatingLoop.Run: time spent between calls, waits and joins, a timer that oversleeps, a call that takes longer than its timeout (the HTTP client grants it to the connect and to every read apart), and a heartbeat file that cannot be written; HTTP timeouts below zero are not considered.
- UrlMask.UnsealedIsShown: exact for logins without a "://" of their own; one inside a login is scanned as another URL, which `UrlMask.HiddenIff` covers.
- CameraUrl.CredentialsAreRecovered: usernames and passwords are byte strings, without the encoding of text to bytes.
- TypeTranslation.TranslationIsSound: for documents whose named schemas are enumerations, objects or plain types and whose maps are typed and have no properties of their own; whether some other document happens to be typed soundly is not characterised.
- TypeText.TypeScriptAgreesIff: schema names that collide with a word of the language, and whitespace between lexemes.
- OpenapiDiff.Compare: the order and wording of the report, and `required` values that are not lists of strings.
- SQL, HTTP, device relays, evidence-frame copying and event-log JSON around the entry engine: steps that succeed or fail.
- The operation methods and module headers of the generated clients, field renaming and rustfmt: text templates without a property beyond their text.
- `validate_stream_url`, credential decryption, the bench harness and the other check scripts: settled by reading one branch, or regex and YAML lints.
- The React interface, the generated clients, migrations and packaging.
