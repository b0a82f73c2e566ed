# sion-backup: a verified model

This project models the parts of sion-backup whose promises span many steps, machines and
failures, and proves those promises in Dafny.

- **Bucket rotation.** A server keeps repository rows that move from offered through
  cutting-over and active to retired, and it alone permits a machine to create a repository. A
  machine fetches URL, row state and permission in one answer, may create under that
  permission, backs up, verifies, reports, and lets the old bucket go. `Rotation` holds the
  server's requests as functions on values, `RotationStub` the mutable server proved against
  them, `RotationRows` what the rows keep, `RotationAnswers` what each request is answered.
  `RotationProtocol` is the distributed system: rows, buckets and any number of overlapping runs,
  one atomic action at a time, with lost, repeated and late reports and with buckets emptied from
  outside. `RotationSafety` holds its theorems, `RotationFirstRun` follows a run that goes well,
  and `RepositoryOpening` the client's look-create-look sequence.
- **The disclosure log.** A machine keeps the heads of a hash chain and judges each later,
  possibly capped, reading by them (`Disclosure`); `DisclosureProofs` says what each verdict is
  worth, and `DisclosureLinks` what holding together is worth of lists that are not honest.
- **Self-update.** Files beside the running program are renamed, written and removed, and each of
  these may fail, be cut off or be followed by a crash: what survives, and what does not
  (`SelfUpdate`, `SelfUpdater`, `SelfUpdateProofs`, `SelfUpdateAnswers`, `Versions`); versions
  given up on are kept in a text file (`SelfUpdateRefusals`), and whole histories are followed
  (`SelfUpdateHistory`, `SelfUpdateChurn`).
- **One backup.** A fresh nonce goes into the backup and has to come back out (`BackupRun`);
  starts, cancels and rows interleave on one runner (`RunnerFlight`, `RunnerSteps`); results are
  reported in order, at least once, to a dashboard that keeps one row per run (`Reporting`,
  `ReportingProofs`).
- **Smaller cores.** Canonical percent-encoding for request signing (`SigV4`, `SigV4Query`),
  the pruned and budgeted directory walk (`DirWalk`, `DirWalkProofs`, `DirWalkPatterns`), the
  fold over restic's messages (`ResticStream`), and the weekly slice and units (`Integrity`).

The pattern throughout: a class or a looping method does what the program does, step by step,
and is proved equal to a specification function; lemmas then prove what that function, or every
sequence of it, keeps. What is decided outside (a rename that fails, an answer from restic, a
network that drops a reply) is a parameter, so each theorem is about all of its values.

Verify with `dafny verify dfyconfig.toml`.

## Where the code and its words differ

- `previousTo` is described as the newest row *older* than the one moved onto. The code compares
  no ages; `RotationRows.LeavesAnOlderRowIff` says when the description holds and
  `RotationRows.NewerRowLeftBehindWitness` shows it failing.
- Nothing in `cutover` refuses an offer while another bucket is being filled.
  `RotationRows.KeepsRowsIff` shows that acceptance to be the one request that breaks the row
  invariant, and `RotationRows.StaleAcceptanceWitness` follows it to two active rows.
- One URL may be offered twice. A report then marks the oldest row of that URL while the machine
  writes to the newest, and the permission to create stays open on a bucket that holds a verified
  backup: `RotationSafety.PostedTwiceWitness`; `RotationSafety.ReportClosesIff` has the exact
  condition.
- A bucket emptied after a report is safe from later fetches, not from a run that fetched its
  permission before: `RotationSafety.NeverRecreated` has the condition and
  `RotationSafety.OpenPermitRecreates` shows it is needed.
- The disclosure check recomputes no hash, so fields edited under unchanged hashes pass:
  `DisclosureProofs.VerdictReadsNoFields`.
- The check that a list holds together is said to catch a truncated or reordered one. It sees
  another head, hash or link, but neither an entry left out nor the list turned round:
  `DisclosureLinks.LeavingOutIsNotBroken`, `DisclosureLinks.ReversedIsNotBroken`.
- `Apply` assumes the running version is the one at `exe`, and `Settle` that the file describes
  the running version. Callers can break both (`cmd/sion-backup/restart.go:130`,
  `cmd/sion-backup/run.go:77`, `cmd/sion-backup/daemon.go:670`);
  `SelfUpdateProofs.ApplyingTwiceLosesTheOriginal` and `SelfUpdateProofs.SettlingTooSoon` show
  what is then lost.
- The smoke test asks for containment, so `v1.4.10` passes as `v1.4.1`, and in general a tag for
  every tag it begins with: `SelfUpdateProofs.SmokeTestPassesIff`.
- The list of versions given up on is trimmed when it is read and not when it is written or
  compared. A version with white space around it is never recognised on it
  (`SelfUpdateRefusals.RecognisedIff`), is added again each time, and is installed and gone back
  from without end: `SelfUpdateChurn.UncleanVersionChurnsForEver`,
  `SelfUpdateChurn.SpacedTagChurnsForEver`.
- A file is written by emptying it first. A crash, or a full disk, while a start is counted ends
  probation unseen and the next start removes the previous binary
  (`SelfUpdateProofs.CrashWhileCountingLosesTheWayBackIff`). One while a refusal is written loses
  every version given up on before, although writing it first is meant to make a crash harmless
  (`SelfUpdateChurn.TornRefusalForgetsTheOthers`,
  `SelfUpdateChurn.CrashWhileRefusingForgetsTheOthers`).
- The list holds ten versions, "more than a fleet will ever accumulate". Eleven bad ones are
  installed and gone back from in turn without end: `SelfUpdateChurn.ElevenVersionsChurnForEver`.
- A repository check that could not be finished, the bucket out of reach or the password wrong, is
  recorded and reported as damage: `Integrity.RecordIsTrueIff`,
  `Integrity.UnreachableCountsAsDamage`.
- A skipped repository check replaces the record of a failed one, so a damaged repository stops
  counting as damaged after a week on a metered connection: `Integrity.LastRecordDecides`.
- A run cancelled before its preparation fails is recorded as failed, since its cause is never
  looked at: `RunnerFlight.FailedPreparationIsNotCancelled`.
- Between winning the single-flight guard and storing its cancel function a run cannot be
  cancelled, although it counts as running: `RunnerFlight.TurnedAwayIff`.
- A run whose event is answered with a rejection, for whatever reason, is marked reported, and the
  dashboard may never learn of it: `ReportingProofs.RejectedRunIsLost`. A run that failed before
  its identity was minted always is.

## Model

| member | source | states |
|---|---|---|
| Text.SpacesAre | scripts/backup-e2e/eumaeusstub/main.go:324-330 | the white space that is trimmed |
| Text.CanonDropsOnlyPadding | scripts/backup-e2e/eumaeusstub/main.go:324-330 | the form two repository URLs are compared in is the URL less some surrounding space and trailing slashes, nothing else |
| Text.PaddingIsIgnored | scripts/backup-e2e/eumaeusstub/main.go:324-330 | every such padding of a bare URL compares as that URL |
| RotationStub.Server.constructor | scripts/backup-e2e/eumaeusstub/main.go:117-124 | the server starts with one active row |
| RotationStub.Server.CurrentRow | scripts/backup-e2e/eumaeusstub/rotation.go:85-98 | the loop finds the first cutting-over row, else the last active one |
| RotationStub.Server.NewestOffer | scripts/backup-e2e/eumaeusstub/rotation.go:105-113 | the backward loop finds the last offered row |
| RotationStub.Server.FindRow | scripts/backup-e2e/eumaeusstub/rotation.go:115-123 | the first row under any spelling of the URL |
| RotationStub.Server.RowLeftBehind | scripts/backup-e2e/eumaeusstub/rotation.go:458-470 | the last row that is neither the current one nor retired nor offered |
| RotationStub.Server.CredentialsHandler | scripts/backup-e2e/eumaeusstub/main.go:369-419 | URL, state and permission come from one row in one answer |
| RotationStub.Server.RotationRequestHandler | scripts/backup-e2e/eumaeusstub/rotation.go:272-311 | what asking for a rotation answers and changes, refusals included |
| RotationStub.Server.CutoverHandler | scripts/backup-e2e/eumaeusstub/rotation.go:317-377 | what accepting an offer answers and changes, the repeated acceptance first |
| RotationStub.Server.OldBucketHandler | scripts/backup-e2e/eumaeusstub/rotation.go:383-454 | what a release request answers and changes; a date already set is kept |
| RotationStub.Server.NoteRunEvent | scripts/backup-e2e/eumaeusstub/rotation.go:508-533 | a finished event with a snapshot marks the row of the bucket it names |
| RotationStub.Server.AdminOfferHandler | scripts/backup-e2e/eumaeusstub/rotation.go:542-572 | an offer appends one row |
| RotationStub.Server.AdminRetireHandler | scripts/backup-e2e/eumaeusstub/rotation.go:580-604 | the row left behind is retired and the cutting-over one promoted |
| RotationStub.Server.AdminPointAtHandler | scripts/backup-e2e/eumaeusstub/rotation.go:632-675 | only an active row is moved to another URL, and its evidence is reset |
| RotationRows.GoodRowsSelect | scripts/backup-e2e/eumaeusstub/rotation.go:85-98 | with one active and at most one cutting-over row there is always a current row, and what a cutting-over one leaves behind is the active one |
| RotationRows.StartIsGood | scripts/backup-e2e/eumaeusstub/main.go:117-124 | the first row satisfies the row invariant |
| RotationRows.CutoverKeepsRowsIff | scripts/backup-e2e/eumaeusstub/rotation.go:335-369 | an acceptance keeps the invariant exactly when no other bucket was being cut over to |
| RotationRows.KeepsRowsIff | scripts/backup-e2e/eumaeusstub/rotation.go:272-675 | any request keeps the invariant exactly when it is not that stale acceptance |
| RotationRows.RowsStayGood | scripts/backup-e2e/eumaeusstub/rotation.go:272-675 | the invariant over every sequence of requests without one |
| RotationRows.ServeIsForward | scripts/backup-e2e/eumaeusstub/rotation.go:272-675 | no request drops or reorders rows, moves one backward, or changes its dates of creation and offer, its adoption or a release date once set |
| RotationRows.RunsAreForward | scripts/backup-e2e/eumaeusstub/rotation.go:272-675 | the same over every sequence of requests, stale acceptances included |
| RotationRows.AcceptingAgain | scripts/backup-e2e/eumaeusstub/rotation.go:335-343 | an accepted cutover repeated before retirement, after anything else and in any spelling, changes nothing and answers the same |
| RotationRows.LandingAgain | scripts/backup-e2e/eumaeusstub/rotation.go:508-533 | a report delivered twice changes what once does |
| RotationRows.RetirementReopensRotation | scripts/backup-e2e/eumaeusstub/rotation.go:580-604 | after retirement the same row is current and a rotation is no longer refused as under way |
| RotationRows.TwoOffersReached | scripts/backup-e2e/eumaeusstub/rotation.go:542-572 | two offers in a row are reachable and the rows still good |
| RotationRows.StaleAcceptanceWitness | scripts/backup-e2e/eumaeusstub/rotation.go:345-369 | accepting both leaves two rows cutting over, and retiring then leaves two active |
| RotationRows.LeavesAnOlderRowIff | scripts/backup-e2e/eumaeusstub/rotation.go:456-470 | from the steady state the row left behind is the active one, and it is older exactly when the accepted offer was made after it |
| RotationRows.NewerRowLeftBehindWitness | scripts/backup-e2e/eumaeusstub/rotation.go:456-470 | accepting a left-over offer leaves a newer row behind |
| RotationAnswers.SentTo | scripts/backup-e2e/eumaeusstub/main.go:369-419 | in good rows a machine is sent to the bucket being filled, else to the active one, and may create only one being filled, not adopted and with no snapshot reported |
| RotationAnswers.AskedIff | scripts/backup-e2e/eumaeusstub/rotation.go:272-311 | a rotation is asked for exactly when none was, none is under way and nothing is on offer; each refusal for the first that fails |
| RotationAnswers.AcceptedAlready | scripts/backup-e2e/eumaeusstub/rotation.go:335-343 | accepting the bucket being filled changes nothing and answers its URL |
| RotationAnswers.AcceptedIff | scripts/backup-e2e/eumaeusstub/rotation.go:345-377 | any other acceptance moves the newest offer alone, under any spelling, and closes the request; naming anything else is answered with what is on offer, or that nothing is |
| RotationAnswers.LetGoIff | scripts/backup-e2e/eumaeusstub/rotation.go:383-454 | the old bucket is let go exactly when the one being filled is named and verified; the active row alone is dated, once; each refusal in its own case |
| RotationAnswers.RetiredIff | scripts/backup-e2e/eumaeusstub/rotation.go:580-604 | retiring swaps the active row out and the one being filled in, and nothing else |
| RotationAnswers.PointedIff | scripts/backup-e2e/eumaeusstub/rotation.go:632-675 | only the steady state allows pointing elsewhere, and what was reported is forgotten even if the place is the same |
| RotationAnswers.NamelessIsRefused | scripts/backup-e2e/eumaeusstub/rotation.go:542-675 | an offer of no name, or pointing at none, is refused and changes nothing |
| RotationAnswers.OfferedLast | scripts/backup-e2e/eumaeusstub/rotation.go:542-572 | any other offer is one more row at the end, with nothing reported, and the newest offer |
| RotationAnswers.NowhereToSend | scripts/backup-e2e/eumaeusstub/rotation.go:272-675 | with only offers and retired rows every request of a machine is answered that there is no repository, and changes nothing |
| RotationAnswers.NothingLeftBehind | scripts/backup-e2e/eumaeusstub/rotation.go:456-470 | with no other row there is no earlier bucket to let go or retire |
| RotationAnswers.ReportIsAcknowledged | scripts/backup-e2e/eumaeusstub/rotation.go:508-533 | a report is acknowledged whatever it says |
| RotationAnswers.ReportMarksFirst | scripts/backup-e2e/eumaeusstub/rotation.go:508-533 | a finished event with a snapshot sets the flags of the first row of its URL, clears none, and touches nothing else |
| RotationAnswers.OtherReportsChangeNothing | scripts/backup-e2e/eumaeusstub/rotation.go:508-533 | any other event changes nothing |
| RotationAnswers.FlagsStay | scripts/backup-e2e/eumaeusstub/rotation.go:508-533 | over every sequence of requests a row keeps its URL and what was reported of it unless the operator points that row elsewhere |
| RotationAnswers.PermittedUntilReported | scripts/backup-e2e/eumaeusstub/main.go:369-419 | from acceptance to promotion, whatever else is requested, a machine is sent to the new bucket and may create there exactly until a snapshot in it was reported |
| RotationAnswers.LetGoOnceVerified | scripts/backup-e2e/eumaeusstub/rotation.go:383-454 | over the same time the old bucket is let go exactly once a verified snapshot was reported; no later report takes that back |
| RotationAnswers.RotationGoesThrough | scripts/backup-e2e/eumaeusstub/rotation.go:272-604 | from any steady state a whole rotation gets its answers, and ends with the old row retired and dated, the new one active and verified, every other as it was |
| RepositoryOpening.Repository.Exists | foundation/restic/ops.go:32-44 | "absent" exactly when the look reached the place and nothing is there, "opened" exactly when it reached and something is |
| RepositoryOpening.Repository.Initialise | foundation/restic/ops.go:19-23 | creation never touches a repository that is there |
| RepositoryOpening.Repository.Ensure | foundation/restic/ops.go:83-111 | looks, creates only if permitted and absent, looks again; each error exactly in its own case, somebody emptying the place in between included; snapshots already there are kept |
| RepositoryOpening.Repository.OpenForRun | cmd/sion-backup/rotate.go:203-235 | without permission on this fetch nothing is looked at or created |
| RepositoryOpening.OpeningIsItsSteps | cmd/sion-backup/rotate.go:203-235 | the protocol's atomic steps, taken without interruption, do to the bucket what the sequential opening promises and touch nothing else |
| RotationSafety.RunsAreFetched | scripts/backup-e2e/eumaeusstub/main.go:369-419 | every run carries URL, state and permission of one earlier answer of the server, unchanged |
| RotationSafety.RunsPersist | cmd/sion-backup/daemon.go:566-614 | what a run was told never changes while it runs |
| RotationSafety.EventsAreHonest | cmd/sion-backup/daemon.go:618-641 | a report names the bucket its run wrote to, and says verified only of a snapshot that run read back there |
| RotationSafety.SafeCreation | cmd/sion-backup/rotate.go:203-235 | in every interleaving a creation is at the URL of this run's own fetch, for a row then cutting over, not adopted and without a reported snapshot, after this run was told "absent", and where nothing is |
| RotationSafety.StepKeepsHistory | foundation/restic/ops.go:83-111 | no step but emptying this very bucket loses a repository or a snapshot |
| RotationSafety.HistoryIsNeverLost | foundation/restic/ops.go:83-111 | the same over every stretch of every run of the system |
| RotationSafety.ReportClosesIff | scripts/backup-e2e/eumaeusstub/rotation.go:508-533 | recording a finished run with a snapshot closes the creation window of its URL exactly when every other row of that URL is adopted, has a snapshot, or is active or retired |
| RotationSafety.PostedTwiceWitness | scripts/backup-e2e/eumaeusstub/rotation.go:508-533 | one offer posted twice, accepted, and a verified report landed, from the start state: the rows are good and the permission is still given |
| RotationSafety.ServeKeepsClosedIff | scripts/backup-e2e/eumaeusstub/rotation.go:139-141 | a closed window is reopened by exactly one request: offering the same URL again as empty storage |
| RotationSafety.ClosedStaysClosed | scripts/backup-e2e/eumaeusstub/rotation.go:139-141 | a closed window stays closed over every run without one |
| RotationSafety.NamesStayDistinct | scripts/backup-e2e/eumaeusstub/rotation.go:542-572 | row URLs stay distinct in any spelling if offers and point-at name new ones |
| RotationSafety.WindowClosesForGood | scripts/backup-e2e/eumaeusstub/rotation.go:139-141 | after one reported snapshot no later fetch naming that bucket carries permission, if no other row of its URL stood open at the report and nobody has since offered the URL again as empty storage |
| RotationSafety.FreshNamesCloseEveryWindow | scripts/backup-e2e/eumaeusstub/rotation.go:542-572 | both conditions hold in every run of the system that never names a URL twice |
| RotationSafety.NeverRecreated | cmd/sion-backup/rotate.go:203-235 | with the window closed and no unused permission out, no client creates there again |
| RotationSafety.EmptiedStaysEmpty | cmd/sion-backup/rotate.go:203-235 | so a bucket emptied then stays empty until somebody other than a client fills it |
| RotationSafety.OpenPermitRecreates | cmd/sion-backup/rotate.go:203-235 | a run still holding an unused permission does recreate an emptied bucket |
| RotationSafety.VerifiedComesFromAnEvent | scripts/backup-e2e/eumaeusstub/rotation.go:508-533 | a row becomes verified only by a finished, verified event with a snapshot naming it |
| RotationSafety.VerifiedRowsHaveEvidence | scripts/backup-e2e/eumaeusstub/rotation.go:508-533 | in every run of the system a verified row rests on the very step that set its flag: the report of a run that read its own snapshot back from that bucket |
| RotationSafety.RowsAreGood | scripts/backup-e2e/eumaeusstub/rotation.go:335-376 | the row invariant in every reachable state without stale acceptances |
| RotationSafety.ReleaseNeedsEvidence | scripts/backup-e2e/eumaeusstub/rotation.go:401-454 | in every run of the system a release date is set only on the row a cutting-over successor leaves behind, at the request of a run sent to that successor, with that evidence for it; in good rows it is the active row |
| RotationSafety.ReleaseDateIsKept | scripts/backup-e2e/eumaeusstub/rotation.go:430-446 | a date once set never changes |
| RotationSafety.GrantedUntilRetired | scripts/backup-e2e/eumaeusstub/rotation.go:383-454 | in the whole system, once a run has reported a verified snapshot of the bucket being filled, every request to let the old one go is granted until it is retired |
| RotationFirstRun.FetchIs | cmd/sion-backup/rotate.go:203-235 | a fetch puts the answer of that moment in hand and changes nothing else |
| RotationFirstRun.LookIs | cmd/sion-backup/rotate.go:203-235 | a permitted run looks first and goes on, may create, or gives up by what it saw; another does not look |
| RotationFirstRun.CreateIs | foundation/restic/ops.go:83-111 | creating makes an empty repository where there was none even if the answer is lost; who heard of it looks again, any other gives up |
| RotationFirstRun.WriteIs | cmd/sion-backup/daemon.go:566-614 | a backup adds its snapshot to what is there, or ends without one |
| RotationFirstRun.VerifyIs | business/domain/backup/backupbus/backupbus.go:773-810 | only a snapshot that is there is read back, and the report says whether it was |
| RotationFirstRun.ReportIs | cmd/sion-backup/daemon.go:618-641 | every ended run is reported; a release is asked for exactly by one sent to a bucket being filled that read its snapshot back |
| RotationFirstRun.OutsideIs | cmd/sion-backup/rotate.go:203-235 | a bucket may be emptied or filled from outside at any time, and nothing else changes with it |
| RotationFirstRun.FirstRunGoesThrough | cmd/sion-backup/rotate.go:203-235 | from the acceptance of an empty bucket a run may take each of its steps in turn, and in the end its snapshot is there, verified, and the old bucket let go |
| Disclosure.EntryAt | business/domain/disclosure/disclosurebus/disclosurebus.go:514-522 | an entry shown at that position, or none is |
| Disclosure.FirstFinding | business/domain/disclosure/disclosurebus/disclosurebus.go:424-468 | the first kept head, oldest first, with the wanted finding |
| Disclosure.Linked | business/domain/disclosure/disclosurebus/disclosurebus.go:476-511 | the loop decides whether the reading holds together |
| Disclosure.At | business/domain/disclosure/disclosurebus/disclosurebus.go:514-522 | the loop finds the entry at a position |
| Disclosure.Check | business/domain/disclosure/disclosurebus/disclosurebus.go:424-468 | the loop's verdict and vouching head are those of the judgement: broken, else the first contradiction, else the first agreement |
| Disclosure.Split | business/domain/disclosure/disclosurebus/disclosurebus.go:393-417 | one pass sorts the entries into the columns the page shows |
| Disclosure.ColumnsAre | business/domain/disclosure/disclosurebus/disclosurebus.go:393-417 | which entries are in which column, each as often as it was listed and nowhere else; foreign keys among the keys |
| Disclosure.ColumnsKeepOrder | business/domain/disclosure/disclosurebus/disclosurebus.go:393-417 | each column keeps the order of the list |
| Disclosure.Remembered | business/domain/disclosure/stores/disclosuredb/disclosuredb.go:47-63 | a head is kept in order of count unless one of that count is already there |
| Disclosure.Trail.Reading | business/domain/disclosure/disclosurebus/disclosurebus.go:366-390 | judged against the heads kept before, every part of the report as the reading gives it, and the new head kept whatever the verdict; each failure exactly in its own case, an unreadable list of kept heads included, and it keeps nothing |
| DisclosureProofs.HonestReadingLinksIff | business/domain/disclosure/sources/eumaeusdisclosure/eumaeusdisclosure.go:78-86 | an honest chain links up exactly when the list is not cut to nothing, hence the lower clamp |
| DisclosureProofs.HashFixesPrefix | business/domain/disclosure/disclosurebus/disclosurebus.go:424-468 | under an injective hash, equal hashes at a position mean equal chains up to it |
| DisclosureProofs.FindingIs | business/domain/disclosure/disclosurebus/disclosurebus.go:424-468 | what one kept head finds, said about the chains: too short, differing prefix within reach, or same prefix within reach |
| DisclosureProofs.AlarmIff | business/domain/disclosure/disclosurebus/disclosurebus.go:424-468 | an alarm exactly when some chain shown before is not a prefix of the chain now and the count or the list reaches far enough, for every cap of at least one |
| DisclosureProofs.AgreementMeansPrefix | business/domain/disclosure/disclosurebus/disclosurebus.go:424-468 | "agrees" names the oldest head in reach, and the chain seen then, and every chain in reach, is a prefix of the chain now |
| DisclosureProofs.VerdictReadsNoFields | business/domain/disclosure/disclosurebus/disclosurebus.go:476-511 | fields edited under the same hashes leave the verdict as it was |
| DisclosureProofs.LiveStaysHonest | business/domain/disclosure/disclosurebus/disclosurebus.go:366-390 | appends and readings keep every kept head the head of a prefix of the current chain |
| DisclosureProofs.NoFalseAlarm | business/domain/disclosure/disclosurebus/disclosurebus.go:366-511 | after every honest history a reading with any limit is no alarm; first look exactly when nothing is kept, agreement exactly when a non-empty head is in reach |
| DisclosureProofs.KeptForever | business/domain/disclosure/stores/disclosuredb/disclosuredb.go:42-63 | a head once kept is kept, with its first date |
| DisclosureProofs.VouchesFromTheFirstSighting | business/domain/disclosure/stores/disclosuredb/disclosuredb.go:42-63 | looking again never moves the date an uncapped reading vouches from |
| Disclosure.HeadIs | business/domain/disclosure/disclosurebus/disclosurebus.go:366-390 | what is kept of a reading |
| Disclosure.EmptyHeadIsSilent | business/domain/disclosure/disclosurebus/disclosurebus.go:424-468 | the head of an empty chain says nothing of any reading |
| DisclosureLinks.OneHeadOneList | business/domain/disclosure/disclosurebus/disclosurebus.go:476-511 | two lists of one count under one head, hashed as they stand and neither called broken, show the same entries as far as both reach, however they were made |
| DisclosureLinks.AlteredHeadIsBroken | business/domain/disclosure/disclosurebus/disclosurebus.go:476-492 | another head over an honest list is always called broken |
| DisclosureLinks.AlteredHashIsBroken | business/domain/disclosure/disclosurebus/disclosurebus.go:476-511 | so is another hash on any entry shown |
| DisclosureLinks.AlteredLinkIsBrokenIff | business/domain/disclosure/disclosurebus/disclosurebus.go:494-508 | another link exactly when the entry it should lead to is shown |
| DisclosureLinks.AlteredCountIsBrokenIff | business/domain/disclosure/disclosurebus/disclosurebus.go:476-492 | another count only over the empty list |
| DisclosureLinks.LeavingOutIsNotBroken | business/domain/disclosure/disclosurebus/disclosurebus.go:494-508 | leaving an entry out is never seen |
| DisclosureLinks.ReversedIsNotBroken | business/domain/disclosure/disclosurebus/disclosurebus.go:494-508 | nor is turning the list round |
| DisclosureLinks.WhichAlarm | business/domain/disclosure/disclosurebus/disclosurebus.go:424-468 | rewritten exactly when a head in reach differs, shrunk exactly when none does and one is past the end |
| Versions.Parse | foundation/selfupdate/selfupdate.go:438-459 | three numbers read from a tag, or none |
| Versions.ReadNumbers | foundation/selfupdate/selfupdate.go:446-458 | the array-filling loop reads all three parts or rejects |
| Versions.IsNewer | foundation/selfupdate/selfupdate.go:414-435 | newer exactly when both parse and the first difference is upward |
| Versions.NewerIsStrict | foundation/selfupdate/selfupdate.go:414-435 | a strict order: no update goes round in a circle |
| Versions.TagRoundTrip | foundation/selfupdate/selfupdate.go:438-459 | a tag written from three numbers parses to them |
| Versions.BareTagReadsAlike | foundation/selfupdate/selfupdate.go:438-459 | the `v` may be left out |
| Versions.PartIs | foundation/selfupdate/selfupdate.go:446-458 | a part is digits that fit 64 bits with at most a plus before them, or zeros after a minus |
| Versions.NothingElseIsAPart | foundation/selfupdate/selfupdate.go:446-458 | and nothing else |
| Versions.NewerIsNumeric | foundation/selfupdate/selfupdate.go:414-435 | on tags as written, newer is numerically later |
| SelfUpdate.Contains | foundation/selfupdate/selfupdate.go:354 | substring containment |
| SelfUpdater.Updater.SwapFiles | foundation/selfupdate/selfupdate.go:368-389 | the renames of a swap, in order, with every intermediate state and the undo |
| SelfUpdater.Updater.ApplyUpdate | foundation/selfupdate/selfupdate.go:192-264 | one update attempt: refusals, failures, the swap, probation, whose write may be cut off |
| SelfUpdater.Updater.RefusedVersions | foundation/selfupdate/probation.go:360-375 | the lines of the file, trimmed, blank ones dropped |
| SelfUpdater.Updater.Refuses | foundation/selfupdate/probation.go:378-386 | the version as it is compared with the lines as they are trimmed |
| SelfUpdater.Updater.RefuseVersion | foundation/selfupdate/probation.go:337-353 | the file read, added to unless the version is among what was read, the oldest dropped past ten, and written back; a write may fail before it begins or be cut off with anything left |
| SelfUpdater.Updater.ForgetRefused | foundation/selfupdate/probation.go:394-400 | the list is cleared |
| SelfUpdater.Updater.RollBackFiles | foundation/selfupdate/probation.go:277-327 | the renames of a rollback, in order, with every intermediate state and each undo |
| SelfUpdater.Updater.Start | foundation/selfupdate/probation.go:186-231 | what a start counts, writes, rolls back and answers; a count cut off leaves a file nothing is read from |
| SelfUpdater.Updater.SettleVersion | foundation/selfupdate/probation.go:250-266 | settling clears probation first and then the way back |
| SelfUpdateProofs.SwapConserves | foundation/selfupdate/selfupdate.go:368-389 | at every crash point of a swap the binary that was at `exe` is at `exe`, `.old` or `.back` |
| SelfUpdateProofs.SwapEnds | foundation/selfupdate/selfupdate.go:368-389 | how each ending leaves `exe` and `.old`; `exe` is empty only if the installing and the undoing rename failed |
| SelfUpdateProofs.RollBackConserves | foundation/selfupdate/probation.go:277-327 | at every crash point of a rollback the failed and the previous binary each have a place of their own |
| SelfUpdateProofs.RollBackEnds | foundation/selfupdate/probation.go:277-327 | how a rollback ends; `exe` is empty only if two renames failed |
| SelfUpdateProofs.SwapWithoutExeLosesIff | foundation/selfupdate/selfupdate.go:368-389 | with `exe` already empty a further attempt loses the only copy exactly when its first removal works |
| SelfUpdateProofs.FailedSwapKeepsTheWayBackIff | foundation/selfupdate/selfupdate.go:368-389 | a swap that fails leaves `exe` and `.old` as they were exactly when neither the removal nor the first rename worked |
| SelfUpdateProofs.ProbationIsBounded | foundation/selfupdate/probation.go:186-231 | at most three starts on probation, and one more for each count that could not be written in full |
| SelfUpdateProofs.LastStartDecides | foundation/selfupdate/probation.go:186-231 | the next start rolls back or is stuck, ends probation, and restores the recorded previous version |
| SelfUpdateProofs.GivenUpIsRecognisedIff | foundation/selfupdate/probation.go:277-327 | the version gone back from is recognised afterwards exactly when it was before, or its refusal was written in full and reads back as it is, or a write cut off happens to leave it there |
| SelfUpdateProofs.SmokeTestPassesIff | foundation/selfupdate/selfupdate.go:344-360 | a binary that prints its own tag among other words passes for exactly the versions whose tag its own begins with |
| SelfUpdateProofs.SmokeTestIsContainment | foundation/selfupdate/selfupdate.go:344-360 | v1.4.10 passes where v1.4.1 is wanted |
| SelfUpdateRefusals.ListingIsClean | foundation/selfupdate/probation.go:360-375 | what the reader lists is trimmed, not blank and on one line, whatever the file holds |
| SelfUpdateRefusals.ListingAfterRefusal | foundation/selfupdate/probation.go:337-375 | what is read after giving up on a new version: the newest nine at most of what was, and whatever that version comes back as |
| SelfUpdateRefusals.RecognisedIff | foundation/selfupdate/probation.go:337-386 | a version given up on is recognised from then on exactly when it has nothing to trim and is one line |
| SelfUpdateRefusals.InstallableIsCleanIff | foundation/selfupdate/selfupdate.go:438-459 | for a version that parses, exactly when it equals itself trimmed |
| SelfUpdateRefusals.SpacedTagWitness | foundation/selfupdate/probation.go:337-386 | v1.4.0 with a no-break space parses, is never recognised, and is listed twice after two refusals |
| SelfUpdateRefusals.RefusalLasts | foundation/selfupdate/probation.go:337-353 | a refused version outlasts as many new refusals as there are places behind it |
| SelfUpdateRefusals.GivenUpOnUntilTenOthers | foundation/selfupdate/probation.go:337-386 | through the file, a version that reads back is recognised exactly until ten other new ones are given up on |
| SelfUpdateProofs.RefusedIsNotInstalled | foundation/selfupdate/selfupdate.go:216-221 | a version among what the file gives back is not installed, and nothing changes |
| SelfUpdateProofs.InstallIs | foundation/selfupdate/selfupdate.go:192-264 | what an install implies about the answer and leaves in each file |
| SelfUpdateProofs.ApplyingTwiceLosesTheOriginal | cmd/sion-backup/restart.go:130 | a second update before the restart installs again, loses the original binary and leaves a rollback to a version that is gone |
| SelfUpdateProofs.SettlingTooSoon | cmd/sion-backup/run.go:77 | settling from the process that installed believes a version that has not started once |
| SelfUpdateProofs.InstallOpensTheWayBackIff | foundation/selfupdate/selfupdate.go:192-264 | an update that happened opens a way back exactly when the process that made it was the version at `exe` |
| SelfUpdateProofs.NoInstallKeepsTheWayBackIff | foundation/selfupdate/selfupdate.go:192-264 | one that did not happen keeps an open way back exactly when it never reached the swap or the swap's first two operations failed |
| SelfUpdateProofs.WayBackIsTaken | foundation/selfupdate/probation.go:277-327 | with the way back open a working previous binary is restored |
| SelfUpdateProofs.CrashWhileCountingLosesTheWayBackIff | foundation/selfupdate/probation.go:186-248 | a crash while a start is counted loses the way back exactly when it comes between the emptying of the file and its writing: the next start watches nothing and removes the previous binary; so does a count that is cut off |
| SelfUpdateAnswers.AppliedIff | foundation/selfupdate/selfupdate.go:192-264 | installed exactly when wanted, downloaded, passing for its version and both renames worked; nothing to do exactly when not newer or given up on |
| SelfUpdateAnswers.UnwantedIsLeft | foundation/selfupdate/selfupdate.go:205-221 | an unwanted version changes nothing |
| SelfUpdateAnswers.UnansweredIsLeft | foundation/selfupdate/selfupdate.go:192-232 | no installable answer, or no place to write, fails and changes nothing |
| SelfUpdateAnswers.FailedDownloadIsSwept | foundation/selfupdate/selfupdate.go:192-264 | a download that fails changes nothing but what was at `.new` |
| SelfUpdateAnswers.FailedSmokeTestIsSwept | foundation/selfupdate/selfupdate.go:192-264 | nor does one that fails its smoke test |
| SelfUpdateAnswers.InstallLeaves | foundation/selfupdate/selfupdate.go:192-264 | what every file holds after an install |
| SelfUpdateAnswers.NotMovedAside | foundation/selfupdate/selfupdate.go:368-389 | and after a swap whose first rename failed |
| SelfUpdateAnswers.NotMovedIn | foundation/selfupdate/selfupdate.go:368-389 | and after one whose second failed, with its undoing |
| SelfUpdateAnswers.NoWayBackIsLeft | foundation/selfupdate/probation.go:277-290 | without a previous binary that runs nothing is touched |
| SelfUpdateAnswers.RollBackLeaves | foundation/selfupdate/probation.go:277-327 | what every file holds after each ending of a rollback, and which ending it is |
| SelfUpdateAnswers.StartIs | foundation/selfupdate/probation.go:186-231 | what a start answers and changes: nothing on probation, the first three of a version, any later one |
| SelfUpdateAnswers.GivingUpIs | foundation/selfupdate/probation.go:203-231 | which versions a start that gives up names, and what becomes of the probation file |
| SelfUpdateAnswers.UnbegunIsLeft | foundation/selfupdate/probation.go:110-112 | a write that fails before it begins leaves every file as it was |
| SelfUpdateAnswers.SettlingIs | foundation/selfupdate/probation.go:250-266 | what settling changes, and when it changes nothing |
| SelfUpdateAnswers.SettlingTwice | foundation/selfupdate/probation.go:243-266 | settling again changes nothing |
| SelfUpdateHistory.ForgettingIs | foundation/selfupdate/probation.go:394-400 | clearing leaves nothing listed and everything else as it was; failing to, everything |
| SelfUpdateHistory.ForgottenIsInstalledIff | foundation/selfupdate/probation.go:388-400 | a listed version that upgrades is installed by the next check exactly when the list could be cleared |
| SelfUpdateHistory.StartsAreCounted | foundation/selfupdate/probation.go:186-231 | over every history of updates by any process, starts and settlings in which no write of probation fails before it begins, what is on probation is what the last install put there and its count is the starts since |
| SelfUpdateHistory.SettlingBelievesAStartedVersionIff | foundation/selfupdate/probation.go:250-266 | settling believes a version that has started at least once exactly when a start lies between its install and the settling |
| SelfUpdateHistory.NotInstalledWhileListed | foundation/selfupdate/probation.go:337-386 | over every history without a clearing and without a refusal cut off, a listed version is not installed while there are places behind it |
| SelfUpdateHistory.NotInstalledAgain | foundation/selfupdate/probation.go:277-327 | a version gone back from is not installed again by any process until the list is cleared, a refusal is cut off, or ten others have been given up on |
| SelfUpdateChurn.InstallsAreBounded | foundation/selfupdate/selfupdate.go:192-264 | every history over versions that read back installs at most as often as the measure (versions not given up on, versions ahead) starts at |
| SelfUpdateChurn.ChurnEnds | foundation/selfupdate/probation.go:277-353 | at most n(n+2) installs for n such versions, 120 for the ten the list holds |
| SelfUpdateChurn.UncleanVersionChurnsForEver | foundation/selfupdate/probation.go:337-386 | a version that does not read back is installed n times in some history, for every n, with every write working |
| SelfUpdateChurn.SpacedTagChurnsForEver | foundation/selfupdate/probation.go:337-386 | and a tag with a no-break space is such a version |
| SelfUpdateChurn.OldestRefusalComesBack | foundation/selfupdate/probation.go:337-353 | with the list full, giving up on one more version drops the oldest, and the next check installs it |
| SelfUpdateChurn.ElevenVersionsChurnForEver | foundation/selfupdate/probation.go:67-70 | so with more than ten versions, all of which read back, there is for every n a history with n installs, every write working |
| SelfUpdateChurn.TornRefusalForgetsTheOthers | foundation/selfupdate/probation.go:291-296 | a refusal cut off with nothing left in the file lets a version given up on before be installed by the next check |
| SelfUpdateChurn.CrashWhileRefusingForgetsTheOthers | foundation/selfupdate/probation.go:291-296 | a crash while a refusal is written leaves an empty list and everything else as it was |
| SelfUpdateChurn.CheckingWithoutRestartGoesOn | cmd/sion-backup/restart.go:130 | without the restart the same release installs again and again |
| BackupRun.Runner.Backup | foundation/restic/backup.go:150-171 | one retry without the filesystem snapshot, when one was asked for and may be done without and the words of a bad exit, any bad exit, look like a refusal; both attempts may have written |
| BackupRun.Runner.Verify | business/domain/backup/backupbus/backupbus.go:773-810 | the restored bytes decide, not the restore's exit |
| BackupRun.Runner.Execute | business/domain/backup/backupbus/backupbus.go:522-647 | the row filled in step by step, every early return included |
| BackupRun.OutcomeMeans | business/domain/backup/backupbus/backupbus.go:522-647 | which outcome in exactly which case; success needs exit 0, no fallback and the nonce back |
| BackupRun.RowIsTheLastAttempts | business/domain/backup/backupbus/backupbus.go:541-575 | snapshot, unreadable files and fallback are those of the attempt that counts, the repeated one exactly after such a refusal, and empty if restic gave no undisturbed answer |
| BackupRun.MessageMeans | business/domain/backup/backupbus/backupbus.go:522-647 | each message in exactly its own case, and never none |
| BackupRun.WrittenIs | foundation/restic/backup.go:150-171 | which snapshots the attempts leave, and what they hold |
| BackupRun.RunLeaves | business/domain/backup/backupbus/backupbus.go:522-647 | what a run leaves in the repository and in the scratch directory |
| BackupRun.HexIsRead | business/domain/backup/backupbus/backupbus.go:712-738 | two lower-case digits a byte, the high half first |
| BackupRun.HexIsInjective | business/domain/backup/backupbus/backupbus.go:712-738 | different nonces are written differently |
| BackupRun.EverythingIsAccounted | business/domain/backup/backupbus/backupbus.go:522-647 | over every history each snapshot is another writer's or one run's, with that run's nonce or none |
| BackupRun.NonceFindsItsRun | business/domain/backup/backupbus/backupbus.go:773-810 | whatever begins with a run's nonce was written by that run |
| BackupRun.VerifiedIsAboutThisRun | business/domain/backup/backupbus/backupbus.go:773-810 | verified implies the repository holds a snapshot this very run took with its nonce byte for byte, whatever a restore returned |
| BackupRun.SnapshotsStay | business/domain/backup/backupbus/backupbus.go:522-647 | and no later run removes it |
| RunnerFlight.AtMostOneRuns | business/domain/backup/backupbus/backupbus.go:460-478 | at most one attempt is past the guard, and the guard is up exactly while one is |
| RunnerFlight.OneFinishedRowEach | business/domain/backup/backupbus/backupbus.go:460-518 | in every interleaving a recorded attempt has exactly one finished row, a refused one none, and none has two |
| RunnerFlight.OnlyTheStoreLosesRuns | cmd/sion-backup/daemon.go:523-542 | an attempt goes unrecorded only if a store call of its own failed |
| RunnerFlight.AskedIff | business/domain/backup/backupbus/backupbus.go:359-368 | a run's cause is a press exactly when that press was the first thing to cancel its context |
| RunnerFlight.Decided | business/domain/backup/backupbus/backupbus.go:522-567 | a row says what was decided at the one moment the work was over: the failed preparation, or restic's return |
| RunnerFlight.CancelledIff | business/domain/backup/backupbus/backupbus.go:522-567 | a row says cancelled exactly when restic was reached and a press landed before it returned; later ones change nothing |
| RunnerFlight.FailedPreparationIsNotCancelled | business/domain/backup/backupbus/backupbus.go:522-537 | a run whose preparation failed says so, cancelled or not |
| RunnerFlight.FailedStartSaysWhy | business/domain/backup/backupbus/backupbus.go:401-427 | the row of a start that failed says failed, in the words of that very failure, and goes on saying so |
| RunnerSteps.BeginIs | business/domain/backup/backupbus/backupbus.go:460-478 | a start is refused while a run is going, and takes the guard otherwise |
| RunnerSteps.ArmIs | business/domain/backup/backupbus/backupbus.go:460-478 | its cancel function is stored, and a machine already going down has cancelled it |
| RunnerSteps.CreateIs | business/domain/backup/backupbus/backupbus.go:480-518 | its row is made, or the run is over for want of one |
| RunnerSteps.ReturnIs | business/domain/backup/backupbus/backupbus.go:541-557 | a press that cancelled the run decides over what restic returned with |
| RunnerSteps.BalkIs | business/domain/backup/backupbus/backupbus.go:522-537 | a preparation that fails ends the work as failed, for its reason |
| RunnerSteps.FinishIs | business/domain/backup/backupbus/backupbus.go:480-518 | the end goes into its own row, or could not |
| RunnerSteps.LoadIs | business/domain/backup/backupbus/backupbus.go:359-368 | a press loads the stored function, if there is one |
| RunnerSteps.FireIs | business/domain/backup/backupbus/backupbus.go:359-368 | called, it cancels the run it loaded unless that was cancelled already |
| RunnerSteps.DownIs | business/domain/backup/backupbus/backupbus.go:460-478 | a machine going down cancels every run that was not cancelled yet |
| RunnerSteps.RunGoesThrough | business/domain/backup/backupbus/backupbus.go:460-518 | on an idle runner a run may take each of its steps in turn, and leaves one row with what restic came to and the runner idle |
| RunnerSteps.CancelledRunGoesThrough | business/domain/backup/backupbus/backupbus.go:359-368 | pressed while it works it ends cancelled in the words of the press, or as restic came to if the machine was already going down |
| RunnerSteps.NoteIs | business/domain/backup/backupbus/backupbus.go:401-427 | a failed start gets its row, or is over for want of one |
| RunnerSteps.CloseIs | business/domain/backup/backupbus/backupbus.go:401-427 | and is finished in that row with its reason, or could not be |
| RunnerSteps.FailedStartGoesThrough | business/domain/backup/backupbus/backupbus.go:401-427 | a start that fails leaves one row, finished at once with the reason |
| RunnerFlight.WorkEndsAsTheBackupDoes | business/domain/backup/backupbus/backupbus.go:522-567 | for every course of one backup the matching step leaves the outcome that backup's row has |
| RunnerFlight.CancelsAreNotInherited | business/domain/backup/backupbus/backupbus.go:359-368 | a press acts on the run it found and never on another, however late it lands |
| RunnerFlight.TurnedAwayIff | business/domain/backup/backupbus/backupbus.go:359-368 | a press is refused exactly when no run has its cancel function stored |
| Reporting.Unreported | business/domain/backup/stores/backupdb/backupdb.go:215-230 | finished, unmarked runs as stored, oldest first: all of them, or the limit with none younger before any older; no limit means fifty |
| Reporting.Machine.Flush | business/domain/fleet/fleetbus/fleetbus.go:167-207 | the loop performs exactly the sends and marks up to the first failure, and counts the accepted replies among those it marked |
| Reporting.Machine.ReportEnd | cmd/sion-backup/daemon.go:637-641 | a run just ended is sent once and marked only if accepted |
| Reporting.Diagnostics.Flush | business/domain/diag/diagbus/diagbus.go:252-293 | what leaves the queue is a prefix, each report sent or refused first, and only those sent are counted |
| ReportingProofs.ExactlyOnce | business/domain/fleet/fleetbus/fleetbus.go:167-207 | over every history and every answer a server gives, a marked run has exactly one dashboard row saying what it says or was rejected, never two, and every row is one run's |
| ReportingProofs.OnTheDashboardIff | business/domain/fleet/fleetbus/fleetbus.go:167-207 | a run has a row on the dashboard exactly when some send of its event under an identity was stored, heard or not |
| ReportingProofs.RejectionsWereAnswered | business/domain/fleet/fleetbus/fleetbus.go:175-186 | rejected means some send of that run's was answered so |
| ReportingProofs.RejectedRunIsLost | business/domain/fleet/fleetbus/fleetbus.go:175-186 | a run with an identity can be rejected, marked and never on the dashboard |
| ReportingProofs.InterleavingIsAllowed | cmd/sion-backup/daemon.go:637-641 | flushes and out-of-line reports may interleave in any way |
| ReportingProofs.InlineIsAllowed | cmd/sion-backup/daemon.go:637-641 | the out-of-line report marks nothing that was not accepted |
| ReportingProofs.InlineMarksIff | cmd/sion-backup/daemon.go:637-641 | the run is marked exactly when accepted and the mark was taken |
| ReportingProofs.FlushIsAllowed | business/domain/fleet/fleetbus/fleetbus.go:190-196 | nothing is marked before its event was accepted or rejected |
| ReportingProofs.FlushMarksAPrefix | business/domain/fleet/fleetbus/fleetbus.go:167-207 | a flush marks a prefix of what was pending and changes nothing else about any run |
| ReportingProofs.FlushStores | business/domain/fleet/fleetbus/fleetbus.go:167-207 | what reaches the dashboard in a flush is what the events it sent add, in order: those it marks and the one that stopped it |
| ReportingProofs.FlushShortensTheQueue | business/domain/fleet/fleetbus/fleetbus.go:167-207 | the queue falls by exactly that prefix, strictly if the first event is answered and marked; rejected events never hold it up |
| ReportingProofs.UnreportedSize | business/domain/backup/stores/backupdb/backupdb.go:215-230 | as many as are waiting up to the limit, fifty if it is below one |
| ReportingProofs.WorkingFlushDrains | cmd/sion-backup/daemon.go:442-473 | with network and store working a flush clears the queue or fifty of it |
| SigV4.EncodeSegment | foundation/s3probe/sigv4.go:193-214 | the loop writes each byte as itself or as its escape |
| SigV4.UnreservedAre | foundation/s3probe/sigv4.go:193-214 | the sixty-six bytes that stand for themselves |
| SigV4.DigitsAre | foundation/s3probe/sigv4.go:194 | the digits of an escape |
| SigV4.DecodeOfEncode | foundation/s3probe/sigv4.go:193-214 | percent-decoding gives back every byte string |
| SigV4.EncodeIsNormal | foundation/s3probe/sigv4.go:193-214 | only unreserved bytes and upper-case escapes of reserved ones (sections 2.1 and 2.3 of RFC 3986) |
| SigV4.EncodeOfDecode | foundation/s3probe/sigv4.go:193-214 | and every string of that form is the encoding of what it decodes to |
| SigV4.EncodePath | foundation/s3probe/sigv4.go:172-183 | the loop encodes each segment in place and joins them again |
| SigV4.PathRoundTrip | foundation/s3probe/sigv4.go:172-183 | splitting the encoded path and decoding gives the segments |
| SigV4.PathsEqualIff | foundation/s3probe/sigv4.go:172-183 | two paths encode alike only if equal, or one empty and one the bare root |
| SigV4Query.SortedIsUnique | foundation/s3probe/sigv4.go:158 | the same keys sort to one list only |
| SigV4Query.EncodeQuery | foundation/s3probe/sigv4.go:152-169 | whatever order the map is walked in, the result is the query of its sorted keys |
| SigV4Query.BelowIff | foundation/s3probe/sigv4.go:158 | one key comes before another exactly when it is a proper prefix of it or smaller at the first byte that differs |
| SigV4Query.NamesAscend | foundation/s3probe/sigv4.go:152-169 | splitting a query and decoding gives its names, never descending in that order |
| SigV4Query.PairsAreTold | foundation/s3probe/sigv4.go:152-169 | the query determines every name and value, in order |
| SigV4Query.QueriesEqualIff | foundation/s3probe/sigv4.go:152-169 | two maps have one query exactly when they list the same values under every key; only a key with no values is lost |
| DirWalk.UnderAbsolute | foundation/dirsize/dirsize.go:154 | below an absolute root, "/" included, a walked path has one separator before each name |
| DirWalk.Excludes | foundation/dirsize/dirsize.go:247-257 | every pattern trimmed and cleaned, blank ones dropped |
| DirWalk.Match | foundation/dirsize/dirsize.go:260-294 | the loop decides whether some pattern hits |
| DirWalkPatterns.AbsolutePatternHitsIff | foundation/dirsize/dirsize.go:260-294 | an absolute pattern hits exactly the path it names and what is below, element by element |
| DirWalkPatterns.RelativePatternHitsIff | foundation/dirsize/dirsize.go:260-294 | a relative one with a separator hits what its elements end and what its glob hits |
| DirWalkPatterns.BareNameHitsIff | foundation/dirsize/dirsize.go:260-294 | a bare name is a glob of the last element |
| DirWalkPatterns.ExcludedIff | foundation/dirsize/dirsize.go:260-294 | any one pattern is enough |
| DirWalkPatterns.ResolvedOneMore | foundation/dirsize/dirsize.go:247-257 | how cleaning resolves one more element |
| DirWalkPatterns.NameAndBack | foundation/dirsize/dirsize.go:247-257 | a name and the step back from it are nothing |
| DirWalkPatterns.RelativeStays | foundation/dirsize/dirsize.go:247-257 | a relative pattern of names alone is clean |
| DirWalkPatterns.UnderNothing | foundation/dirsize/dirsize.go:154 | what is read in no directory is its name alone |
| DirWalkPatterns.CleanedAgain | foundation/dirsize/dirsize.go:247-257 | a cleaned absolute pattern is names with one separator before each, and cleaning it again changes nothing |
| DirWalk.Walker.VisitEntry | foundation/dirsize/dirsize.go:154-219 | the callback's branches, in order, and what each counts |
| DirWalk.Walker.WalkEntry | foundation/dirsize/dirsize.go:154-219 | the recursive walk with pruning, early stop and the second visit of a directory that cannot be listed |
| DirWalk.Walker.Measure | foundation/dirsize/dirsize.go:102-128 | the roots one after another until one is cut short |
| DirWalkProofs.CompleteWalkIsTheFilter | foundation/dirsize/dirsize.go:146-220 | a complete walk's figures equal the sum over all entries of the unpruned trees, each judged by the paths above it |
| DirWalkProofs.PartialWalkIsAFloor | foundation/dirsize/dirsize.go:146-220 | any walk's figures are at most those, one by one |
| DirWalkProofs.CutShortIff | foundation/dirsize/dirsize.go:154-167 | over all roots together a walk is partial exactly when there is more to look at than the budget and the moment of its cancellation allow; how many entries it then looked at |
| ResticStream.ParseBackup | foundation/restic/backup.go:339-410 | the first hundred errors in order wherever summaries fall, the count of all, the last summary; and what a failed parse keeps |
| ResticStream.MergeErrors | foundation/restic/backup.go:416-426 | counts add, the cap holds |
| ResticStream.BackupOnce | foundation/restic/backup.go:179-250 | the summary, errors and count whichever of the two streams parse, and which failure is answered first |
| ResticStream.CapOfCaps | foundation/restic/backup.go:416-426 | capping each stream and then both keeps what one cap would |
| ResticStream.ParsesIff | foundation/restic/backup.go:339-410 | a stream parses exactly when read to its end with no unreadable summary |
| ResticStream.FirstHundred | foundation/restic/backup.go:374-382 | the first hundred or all |
| ResticStream.LastFinishIs | foundation/restic/backup.go:339-410 | the last summary counts |
| ResticStream.NoFinishIsBlank | foundation/restic/backup.go:339-410 | without one it is blank |
| ResticStream.ErrorsInTwo | foundation/restic/backup.go:339-410 | the errors of two stretches are those of one after the other |
| ResticStream.OnlyFailuresCount | foundation/restic/backup.go:374-382 | the list is every error printed, in order |
| ResticStream.NoiseIsIgnored | foundation/restic/backup.go:339-410 | any other line may fall anywhere without changing the errors, or the summary unless it is one |
| Integrity.SliceIsClamped | business/domain/plan/planbus/integrity.go:93-127 | 64 to 1024 MiB, and exactly when each end is reached |
| Integrity.SliceIsMonotone | business/domain/plan/planbus/integrity.go:114-127 | a larger repository never gets a smaller slice |
| Integrity.AYearCoversIff | business/domain/plan/planbus/integrity.go:93-127 | fifty-two slices exceed the size less 52 MiB exactly below 52 GiB and 52 MiB |
| Integrity.HumanUnit | business/domain/backup/backupbus/backupbus.go:913-928 | the unit is the largest power of 1024 not above the count, its index among the six letters, without overflow |
| Integrity.Keeper.CheckRepository | cmd/sion-backup/daemon.go:757-888 | what one weekly check records, and damage reported exactly when the last answer was any error but a lock |
| Integrity.WeekDecides | cmd/sion-backup/daemon.go:757-888 | a recorded check counts as failed exactly when restic, past any stale lock, ended in any error; a recorded one is not due again at once |
| Integrity.MadeIff | business/domain/plan/planbus/integrity.go:129-140 | once a week, of this repository; a result that cannot be read puts it off, one for another does not |
| Integrity.RecordIs | cmd/sion-backup/daemon.go:757-888 | what a check records, told from restic's first and second answers |
| Integrity.NoCheckNoRecord | cmd/sion-backup/daemon.go:757-768 | nothing otherwise |
| Integrity.RecordIsTrueIff | cmd/sion-backup/daemon.go:863-884 | a recorded check is called damage exactly when restic found damage, if and only if restic was not kept from finishing |
| Integrity.UnreachableCountsAsDamage | cmd/sion-backup/daemon.go:863-884 | one check of a bucket out of reach counts as damage |
| Integrity.LastRecordDecides | business/domain/plan/planbus/integrity.go:152-154 | over any number of weeks the last recorded visit alone decides, skips included |

## Left out

- HTTP, JSON and XML handling, templates, status pages and command-line output; of each handler only its state change and class of refusal is kept.
- restic, S3, SHA-256 and HMAC: restic is an abstract bucket that may fail in any way but believes its own exit codes and refuses to initialise over a repository; the chain's hash is an injective function.
- SQLite, migrations and the pruning of old runs; stores are lists and maps that may fail.
- Downloads, the subprocess of the smoke test and service-manager restarts: a binary is a version, what it prints and whether it runs, and one partly downloaded at `.new` is not a state.
- The bucket, region and card fields of a row, `cardState` and `cardIssued`: the first two are derived from the URL, and "superseded" can appear during a machine's second rotation.
- The guard that a row is retired only after it was let go: `adminRetire` does not look, so nothing here relies on it.
- RotationSafety.NeverRecreated: needs that no run still holds an unused permission, because the permission in an answer does not expire.
- SelfUpdateChurn.ChurnEnds: rests on every refusal being written in full and the end of probation being recorded, on no more versions than the list holds, on checks coming from the version at `exe`, on binaries carrying the version they are offered under, and on versions without white space around them, without which it is false.
- BackupRun.VerifiedIsAboutThisRun: nonces that never repeat and other writers that do not write them are assumptions; the generator is not part of this model.
- ReportingProofs.ExactlyOnce: the server's idempotence on the run's identity is taken from its documentation, its rejections are arbitrary; started events, which are never repeated or marked, are not modelled.
- RunnerFlight: progress figures and what becomes of a row when the process itself dies are not modelled; the mutex around the last write serialises nothing a single runner could interleave.
- Entries' fields that no check reads are one field, `detail`; `Glance` and the page's wording are not modelled.
- DirWalk: the default budget, progress callbacks and the glob language itself are parameters or absent; separators are those of Unix.
- ResticStream: what makes a line JSON, and the 4 MiB line limit, appear only as kinds of line and a reader that may fail.
- Integrity.HumanUnit: the decimal rendering of the quotient is floating point and is not modelled.
- Schedules, rotation advice, the loopback guard, token files, elevation, path resolution and the reading of legacy scripts.
- Times are integers and only compared or subtracted.
