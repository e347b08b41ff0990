# A verified model of the Zanskar gateway's stateful core

Zanskar is a gateway for privileged access. This project models, in Dafny, the
parts of it that keep state and whose comments promise something about every
input or every run, and proves those promises, or proves exactly when they hold.

| files | component |
|---|---|
| `AuditChain`, `AuditStore`, `AuditProofs`, `AuditReseal`, `AuditRewrite`, `AuditRecorded`, `AuditLog`, `AuditExport` | the hash-chained, anchored audit log (`internal/audit`) |
| `RateLimit`, `RateAnswers`, `RateLimiter` | the sign-in rate limiter (`internal/auth/ratelimit.go`) |
| `BootEdit`, `BootEditProofs`, `BootEditAgain`, `BootEditPlaces`, `BootEditMethods` | the environment file merge (`internal/bootedit`) |
| `ConfigIO`, `ConfigRead`, `ConfigProofs`, `ConfigApply`, `ConfigConverge`, `ConfigWhole`, `ConfigPlan`, `ConfigImported`, `ConfigMethods` | configuration export, plan and import (`internal/configio`) |
| `AsgSync`, `AsgProofs`, `AsgWrites`, `AsgHealth`, `AsgSyncer`, `AsgSightings`, `PollSchedule` | autoscaling sync and its poll schedule (`internal/asg`) |
| `Access`, `AccessProofs`, `AccessSteps`, `AccessGrants`, `AccessRepo` | just-in-time access requests (`internal/access`) |
| `Tap` | the live output tap (`internal/gateway/tap.go`) |
| `Basics`, `Strings` | shared types, sorted lists of names, white space |

`dafny verify dfyconfig.toml` checks everything.

Each component has the same shape. A model module gives the data and one function
per step of the code. A methods module has the code's loops and in-place updates,
as classes and methods proved against those functions. The proof modules state
what holds over every input or every run of the steps. `AuditRecorded`, `RateAnswers`,
`BootEditPlaces`, `ConfigPlan`, `ConfigImported`, `AsgHealth` and `AccessSteps` say what
each step does in the fields of its rows and in the words of its input, without the
functions that compute it. No proof relies on automatic induction.

## What the model takes as given

- Hash, MAC and JSON compaction are functions passed in as arguments
  (`AuditChain.Primitives`). The tamper theorems assume no collision among the
  events of the two logs compared and no digest equal to the genesis value
  (`AuditChain.CollisionFree`), and that no anchor checked is forged
  (`AuditProofs.Unforged`). The rotation theorem assumes that the two keys sign
  differently each anchor stored along the run (`AuditProofs.ApartAlong`). Each of
  these premises is about finitely many inputs, so real primitives can meet it.
- A transaction is one step; writers hold a lock. The id sequence has its SQLite form.
  The unique constraint on hashes and the check on outcomes are modelled.
- A hash covers compacted details, so an edit that compacts to the same text is not
  an edit to the model either (`AuditChain.SameLogged`).
- Limiter tokens and times are `real`; times elsewhere are integers.
- The API behind an import stores what it is given, under ids that are not in use
  (`ConfigApply.Supply`). YAML views are equal when the values are.
- What a probe, a console or a cloud snapshot returns, where storage fails, the
  sink's behaviour, the cap of the policies and every clock reading are inputs of a step.

## Where the code and its promise part

- `ResignAnchors` protects against a gateway that still holds the old key exactly when
  there is an anchor to re-sign (`RotationBesideStaleGateway`, `StaleFirstAnchor`).
- Forgetting refilled buckets changes nothing, and a run of refusals is reported as new
  at most once, exactly when the burst is at least 1 (`ForgettingChangesNothing`,
  `ReportsOnceExactly`, `SmallBurstForgetsRefusal`).
- Above a batch size of 500 a flush that nothing disturbs still ends early when more
  than 500 events wait (`UndisturbedFlush`).
- A file whose last kept line ends in a backslash swallows what is added after it. The
  merge reads back as meant, and merging again changes nothing, in every other case and
  in no such one (`MergeReadsBack`, `IdempotentExactly`).
- The one-pending-request rule needs the clock to have moved between asking for a grant
  and asking to extend it (`CreateNewest`, `TieHidesPending`).
- The sessions of an instance that left are ended exactly when storage takes every write
  of the poll (`DepartureEnds`). A failed poll forgets exactly the instances it had marked
  before the failure (`FailedPollForgets`): while they stay away, no run of later polls
  ends their sessions (`TerminatedForGood`).
- Pins are permanent from poll to poll without exception, and at every single write
  exactly when no id is listed twice in a snapshot (`PinsPermanent`,
  `PinnedExactlyWhenDistinct`, `ListedTwiceRepins`).
- A file that plans without problems is unchanged once applied exactly when it lists no
  member twice (`ConvergesExactly`); one that does never plans as unchanged, however often
  it is applied (`DuplicatesNeverSettleInTurn`).
- The comment on `Reseal` says rewriting continues from the first mismatch to the head.
  In a log broken at one place it does so exactly when the break is the head or the hash
  stored there is not the one wanted (`RewritesToTheHead`, and `RewrittenTogether` for any
  log). Where only the link was overwritten, that row alone is rewritten, and the anchors
  from there on are removed although no hash they name has gone (`OneLinkOverwritten`,
  `RemovedForAChange`).

## Model

| member | source | states |
|---|---|---|
| AuditChain.ChainsAgree | internal/audit/chain.go:63-151 | two valid chains that hold the same hash stand at the same position there and say the same thing at every position up to it; so all hashes of a chain are distinct |
| AuditChain.VerifySlice | internal/audit/chain.go:121-151 | a slice passes exactly when every link and hash in it is right (its first link trusted), and otherwise the first bad position is reported |
| AuditProofs.TamperEvidence | internal/audit/store.go:331-439 | after any edits to events and anchors, if Verify finds the log intact and an anchor the gateway once issued is checked, every event up to the anchored one says what it said then, in its place |
| AuditProofs.EveryAnchorProves | internal/audit/store.go:352-439 | where no anchor at hand is forged, every anchor of an intact log, stored or supplied, was issued over some log, and every event up to it says what it said in that log |
| AuditProofs.AnchorNamesHead | internal/audit/anchor.go:123-184 | an anchor taken on a nonempty log names its newest event and that event's hash, and is signed with the key given |
| AuditRecorded.AnchorAccepts | internal/audit/anchor.go:123-184 | an anchor is refused if and only if there is no key, or there are events and the newest anchor was not signed with this key |
| AuditRecorded.AnchorStores | internal/audit/anchor.go:123-184 | the anchor signs the newest event; it is the newest one stored when that does, and otherwise is stored after the others with a new id and a time of whole microseconds |
| AuditRecorded.NothingToAnchor | internal/audit/anchor.go:123-184 | on an empty log nothing is stored and the newest anchor is returned |
| AuditProofs.DeletionDetected | internal/audit/store.go:473-550 | removing any nonempty set of events from an honestly built log, the sequence row untouched and anchors changed at will, makes Verify find it not intact |
| AuditProofs.RecordSound | internal/audit/store.go:82-152 | a recorded event keeps the log honest and every anchor matching |
| AuditProofs.PreparedSurvivesColumn | internal/audit/store.go:82-152 | what Record hashes is what the microsecond column gives back |
| AuditRecorded.RecordStores | internal/audit/store.go:82-152 | what Record adds is one row with every field of the event in its own column, a time of whole microseconds at most a microsecond before it, a new id, its link and a hash over everything it says |
| AuditRecorded.RecordAccepts | internal/audit/store.go:82-152 | Record succeeds if and only if the event has an action and outcome success or failure, its details are a JSON object, and no event has the hash it would get |
| AuditRecorded.LogHolds | internal/audit/store.go:82-152 | after any run of records, anchors, reseals and key rotations from any tables, the log holds what it held and then, in order, what each accepted Record said, and nothing else |
| AuditProofs.AnchorSound | internal/audit/anchor.go:123-184 | taking an anchor keeps the log sound under the key |
| AuditProofs.ResignSound | internal/audit/anchor.go:196-236 | re-signing a log sound under the old key leaves one sound under the new key |
| AuditRecorded.ResignEach | internal/audit/anchor.go:196-236 | re-signing changes signatures alone: an anchor is under the new key afterwards if and only if it was under either, and is otherwise left as it was |
| AuditProofs.ResignAgain | internal/audit/anchor.go:196-236 | re-signing what is already under the new key changes nothing |
| AuditProofs.ResealValid | internal/audit/store.go:764-835 | resealing an honest log changes nothing, so it is no false alarm either |
| AuditProofs.NoFalseAlarms | internal/audit/store.go:331-346 | every state reached from empty tables by any run of Record, Anchor, Reseal and key rotation verifies as intact under the current key, also with anchors kept outside |
| AuditProofs.StaleAnchorRefused | internal/audit/anchor.go:123-184 | once an anchor stands under the new key, a gateway with the old key stores no anchor |
| AuditProofs.RotationBesideStaleGateway | internal/audit/anchor.go:123-236 | after re-signing an honest nonempty log, every interleaving of records, anchors under either key, repeated re-signings and reseals whose anchors the keys sign differently verifies under the new key, if and only if there was an anchor to re-sign |
| AuditProofs.StaleFirstAnchor | internal/audit/anchor.go:123-184 | with no anchor stored, one step of the stale gateway makes the log fail under the new key |
| AuditReseal.ResealRepairs | internal/audit/store.go:764-835 | after Reseal the walk finds no break, and no event's id or content, nor the sequence, has changed |
| AuditReseal.FirstBreak | internal/audit/store.go:521-550 | the first position whose link or hash is bad, all before it being good |
| AuditReseal.ResealStartsAtTheBreak | internal/audit/store.go:764-835 | the first id rewritten is the id at which the walk broke, zero exactly when it had not broken (and then nothing changes), and no row before it is touched |
| AuditReseal.ResealTwice | internal/audit/store.go:764-835 | a second Reseal rewrites nothing |
| AuditReseal.ResealAnchors | internal/audit/store.go:764-835 | an anchor that is left names an event whose hash did not change, and one that names a missing event is always left |
| AuditReseal.ResealForgetsLinks | internal/audit/store.go:764-835 | a log whose link columns alone were overwritten, any number of them, comes back as it was; which rows and anchors that takes is in the rows of AuditRewrite |
| AuditRewrite.FollowsPredecessor | internal/audit/store.go:796-816 | a row linked to the one stored before it is left alone exactly when that one keeps its hash, and otherwise its own hash changes too |
| AuditRewrite.RewrittenTogether | internal/audit/store.go:764-835 | in any log, as long as the rows after a given one are linked, they are all rewritten or all left alone, and rewritten exactly when the recomputed hash of that one differs from the stored |
| AuditRewrite.RewritesToTheHead | internal/audit/store.go:764-835 | in a log broken at one place, rewriting starts there and reaches the head if and only if the break is the head or the hash stored there is not the one wanted; then every hash from there on changes, and otherwise no other row is touched |
| AuditRewrite.RemovedAnchors | internal/audit/store.go:821-830 | an anchor is removed if and only if something was rewritten and it names an existing event from the first one rewritten on |
| AuditRewrite.RemovedForAChange | internal/audit/store.go:821-830 | in a log broken at one place, the hash a removed anchor names has gone if and only if the hash stored at the break was not the one wanted |
| AuditRewrite.OverwrittenBreaks | internal/audit/store.go:521-550 | overwriting one link of a valid chain breaks it there and nowhere else, and the hash stored there is still the one wanted |
| AuditRewrite.OneLinkOverwritten | internal/audit/store.go:764-835 | for any honest log with no hash twice and any one link overwritten, Reseal rewrites that row alone and gives the log back, and removes every anchor of that event and later ones although their hashes never changed |
| AuditLog.Walk | internal/audit/store.go:521-570 | the walk in batches of 1000 reports the count, head and break that one pass over the whole log gives |
| AuditLog.Classify | internal/audit/store.go:382-420 | every anchor is settled by the loop: it matches, gives its problem, or is put aside as past the end; the best is the newest that matches |
| AuditLog.CheckAnchors | internal/audit/store.go:352-439 | an anchor gives a problem exactly when it does not match, every problem is true of its anchor, and the best anchor is the newest that matches |
| AuditLog.SealInBatches | internal/audit/store.go:764-835 | the relinking loop in batches does to the table what one pass over its rows does |
| AuditLog.SealSome | internal/audit/store.go:786-820 | one batch of the loop seals as many rows as it read and leaves the rest for the next, so that together they seal what one pass does |
| AuditLog.ChangesBounded | internal/audit/store.go:731-744 | every row that was rewritten has an id between the first and the last id reported, and the count is then not zero |
| AuditLog.NoneChanged | internal/audit/store.go:731-744 | the count is zero exactly when no row changed, and then both ids are zero |
| AuditLog.ResealRows | internal/audit/store.go:764-835 | the relinking fails exactly when sealing the whole table fails, and otherwise reports the first and last id rewritten, how many rows were, and the new head |
| AuditLog.Log.constructor | internal/audit/store.go:38-40 | an empty log |
| AuditLog.Log.Record | internal/audit/store.go:82-152 | inserts one row, which it returns: every field as given, the time cut to the microsecond, details defaulted, a new id, linked to the newest event and hashed over all of it; on a refusal leaves the tables as they were |
| AuditLog.Log.TakeAnchor | internal/audit/anchor.go:123-184 | stores a new anchor, or returns the one that already covers the head, or refuses and changes nothing; what it returns signs the newest event |
| AuditLog.Log.ResignAnchors | internal/audit/anchor.go:196-236 | re-signs in a loop exactly the anchors under the old key, and counts those and the ones under neither key |
| AuditLog.Log.Reseal | internal/audit/store.go:764-835 | leaves the resealed tables and reports first and last id, rows rewritten, head and anchors removed; on any failure leaves the old tables |
| AuditLog.Log.Verify | internal/audit/store.go:331-346 | intact if and only if the chain holds, every anchor matches and the sequence is not ahead |
| AuditExport.Exporter.constructor | internal/audit/export.go:22-32 | an exporter over a log, wherever its checkpoint stands |
| AuditExport.Exporter.Flush | internal/audit/export.go:89-119 | the delivery loop against any script of acceptances, refusals and losses before the checkpoint is saved |
| AuditExport.ExportAtLeastOnceInOrder | internal/audit/export.go:89-119 | over any run of appends, flushes, sink failures and crashes, first acceptances come in id order with no gap, and everything up to the checkpoint has been accepted |
| AuditExport.CheckpointMonotone | internal/audit/store.go:991-1002 | no step moves the checkpoint back |
| AuditExport.UndisturbedFlush | internal/audit/store.go:936-954 | an undisturbed flush succeeds, and ends at the newest event if and only if its batch size is at most 500 or no more than 500 events wait |
| AuditExport.FlushDelivers | internal/audit/export.go:89-119 | a flush sends what waits in order and in batches; it fails if and only if a batch it comes to is refused or lost, its total is what it moved the checkpoint over, only a lost batch reaches the sink beyond that, and otherwise it ends when nothing waits or after one batch above size 500 |
| RateLimiter.IpLimiter.constructor | internal/auth/ratelimit.go:39-48 | an empty limiter |
| RateLimiter.IpLimiter.Sweep | internal/auth/ratelimit.go:103-109 | removes from the map exactly the buckets that have refilled |
| RateLimiter.IpLimiter.TakeToken | internal/auth/ratelimit.go:61-99 | one call, with its timed sweep, its forced sweep when full and its refusal run: accepted if and only if the key is not turned away and has a token, a first refusal if and only if it lacks one and its bucket was not refusing already |
| RateLimiter.IpLimiter.MakeRoom | internal/auth/ratelimit.go:61-83 | the sweeps before a call, and whether there is a place for the key |
| RateLimiter.IpLimiter.Spend | internal/auth/ratelimit.go:83-99 | the refill of a bucket and the token taken from it or refused |
| RateLimiter.IpLimiter.Allow | internal/auth/ratelimit.go:52-55 | the first half of the answer of Take |
| RateLimit.TakeRefines | internal/auth/ratelimit.go:61-109 | one call answers as the limiter that never forgets, and stays in step with it |
| RateAnswers.AnswersExactly | internal/auth/ratelimit.go:61-99 | in every run, a call is accepted if and only if its key is not turned away and an account of the calls before it (the burst, less a token for each accepted, plus what flows in, up to the burst) has a token; a refusal is the first of its run if and only if it is for lack of a token and the last call its bucket knows of was not refused |
| RateAnswers.WaitingIsEnough | internal/auth/ratelimit.go:61-99 | a key that was refused and waits until what it lacked has flowed in is accepted, whatever other keys do, unless it is turned away |
| RateAnswers.SweepsWhenDue | internal/auth/ratelimit.go:61-109 | other buckets change only by sweeps, which take the refilled ones: more than ten minutes after the last, or when a new key finds the map full and the last forced one was at least a second ago |
| RateLimit.ForgettingChangesNothing | internal/auth/ratelimit.go:61-109 | for every run with a clock that does not go back and the cap not reached, the answers are those of a limiter that never forgets, if and only if the burst is at least 1 |
| RateLimit.SmallBurstForgetsRefusal | internal/auth/ratelimit.go:61-109 | below a burst of 1, two calls across a sweep report two first refusals of one run |
| RateLimit.TakeSpendsCredit | internal/auth/ratelimit.go:61-99 | a call never leaves a key more credit than it had plus what it earned, less the token it took |
| RateLimit.AcceptedBound | internal/auth/ratelimit.go:61-109 | in any stretch of any run, accepted calls of a key number at most burst plus rate times the time, sweeps and cap included |
| RateLimit.KeysBounded | internal/auth/ratelimit.go:61-99 | over any run the map never exceeds its cap |
| RateLimit.OneFirstRefusal | internal/auth/ratelimit.go:61-99 | with a burst of at least 1, a stretch with no call of a key accepted reports at most one first refusal for it |
| RateLimit.ReportsOnceExactly | internal/auth/ratelimit.go:61-109 | every such stretch of every run reports at most one first refusal, if and only if the burst is at least 1 |
| RateLimit.FewKeysNeverFull | internal/auth/ratelimit.go:61-99 | a run over no more keys than the cap never finds the limiter full |
| BootEditProofs.EntriesJoin | internal/bootedit/bootedit.go:259-276 | splitting loses nothing: the entries of a file join to the file |
| BootEditProofs.EntriesWellSplit | internal/bootedit/bootedit.go:259-276 | every entry but the last is closed, and each is as long as it can be |
| BootEditProofs.SplitsBack | internal/bootedit/bootedit.go:259-276 | joining well-split entries and splitting again gives the same entries |
| BootEditProofs.LineAssigns | internal/bootedit/bootedit.go:304-324 | a line written for a variable is read as setting that variable |
| BootEditProofs.LineReadsBack | internal/bootedit/bootedit.go:319-324 | the value read from a line written is the value asked for, quotes and all |
| BootEditProofs.KeyOfReads | internal/bootedit/bootedit.go:304-315 | the code's way of reading a variable meets what the merge needs of it |
| BootEditProofs.OpenSwallows | internal/bootedit/bootedit.go:259-300 | a line that goes on takes what follows into its own entry |
| BootEditProofs.MergeReadsBack | internal/bootedit/bootedit.go:259-300 | splitting the merged file gives exactly the entries meant, if and only if the last line kept does not go on into an addition |
| BootEditProofs.MergeSetsEachOnce | internal/bootedit/bootedit.go:259-300 | each changed variable is set once by its new line, or nowhere when set to "" |
| BootEditProofs.MergeKeepsOthers | internal/bootedit/bootedit.go:259-300 | every other entry stays byte for byte in its old order, but for a missing final newline |
| BootEditProofs.MergeIdempotent | internal/bootedit/bootedit.go:259-300 | merging the same changes again changes nothing where no added line was swallowed |
| BootEditProofs.MergeExact | internal/bootedit/bootedit.go:259-324 | the four results together for the file as the code reads it back, values included |
| BootEditPlaces.KeyOfIs | internal/bootedit/bootedit.go:304-315 | an entry is read as setting a variable if and only if it is an assignment to it, exported or not, with white space only before it and around the name |
| BootEditPlaces.ContinuesIs | internal/bootedit/bootedit.go:268-274 | an entry goes on if and only if there is a backslash before its line end |
| BootEditPlaces.MergedInPlace | internal/bootedit/bootedit.go:259-300 | the merged file is what becomes of each entry, in its place, and then the variables it lacks in order of name |
| BootEditPlaces.AssignmentReplaced | internal/bootedit/bootedit.go:259-300 | an entry that assigns a changed variable is replaced by the new line if it is the first and the variable has a value, and otherwise goes; one that assigns none stays as it is |
| BootEditPlaces.LineForm | internal/bootedit/bootedit.go:319-324 | a line is in double quotes if and only if the value has white space, a comment character or a single quote |
| BootEditAgain.OpenKeyOf | internal/bootedit/bootedit.go:304-315 | an entry that ends in a backslash sets the same variable with more text after it, or nothing that could be a variable |
| BootEditAgain.Joined | internal/bootedit/bootedit.go:268-274 | an entry that goes on and the line it swallows are read as one entry, which does not go on |
| BootEditAgain.SwallowsNotIdempotent | internal/bootedit/bootedit.go:259-300 | a merge that runs a line into an entry that goes on leaves its variable unset, and the next merge adds the line again |
| BootEditAgain.IdempotentExactly | internal/bootedit/bootedit.go:259-324 | merging again changes nothing, and the result read back sets every changed variable as asked, if and only if the last line kept does not go on into an addition |
| BootEditMethods.CheckValues | internal/bootedit/bootedit.go:146-166 | all values of a request are accepted or the whole is refused, with the complaint about the first variable in byte order that has one; what is accepted can be written safely |
| BootEditMethods.TakenExactly | internal/bootedit/bootedit.go:180-193 | a value is taken if and only if its variable may be set, it has at most 1024 bytes, none of its characters is refused, and it is empty or passes the check of its variable |
| BootEditMethods.Changes | internal/bootedit/bootedit.go:137-193 | refuses exactly an unknown mode, a value there is a complaint about or an empty request, in that order; otherwise the preset overlaid with the trimmed values |
| BootEditMethods.ReadEntry | internal/bootedit/bootedit.go:262-274 | the continuation loop reads exactly one entry of the text |
| BootEditMethods.RewriteFile | internal/bootedit/bootedit.go:259-285 | the loop over the lines writes the rewritten entries and remembers which variables it wrote |
| BootEditMethods.Merge | internal/bootedit/bootedit.go:259-300 | the buffer built is the merged text, whatever list of sorted names is taken |
| ConfigRead.ReadItems | internal/configio/configio.go:165-190 | one list read into its map and into the map from ids to names, which still holds everything read before |
| ConfigRead.ReadGroups | internal/configio/configio.go:189-207 | every group under its name and its members, sorted, under its id |
| ConfigRead.Read | internal/configio/configio.go:165-221 | from lists in which no id and no name of a kind is used twice comes a state that has exactly them, groups, targets and policies alike, and in which every id turns back into its name |
| ConfigProofs.PolicyReadsBack | internal/configio/configio.go:312-365 | a policy written by id reads back by name as the file has it, and each grant keeps the id of the one at its place when the kind is the same |
| ConfigProofs.PolicyWritesBack | internal/configio/configio.go:256-275 | a stored policy shown by name and written over itself is itself, grant ids included |
| ConfigProofs.PolicyWritten | internal/configio/configio.go:312-365 | a policy that resolves refers only to things that are there |
| ConfigProofs.TargetReadsBack | internal/configio/configio.go:291-307 | a target written by id reads back as the file has it, its status defaulted |
| ConfigProofs.SamePolicy | internal/configio/configio.go:312-365 | what stops a policy depends on the names there are, not on their ids nor on the policy it replaces |
| ConfigProofs.OwnExportUnchanged | internal/configio/handler.go:162-246 | planning a gateway's own export marks everything unchanged and meets no problem |
| ConfigPlan.PlanStands | internal/configio/handler.go:162-246 | a plan has no problem if and only if every name has text and is used once in its kind, every member is a user, every credential exists, every subject names exactly one of a group on the gateway or in the file and a user, no grant asks for a watcher and every grant target is on the gateway or in the file |
| ConfigPlan.GroupProblem | internal/configio/handler.go:174-185 | what is said of a group: its name first, then a missing member, else nothing |
| ConfigPlan.TargetProblem | internal/configio/handler.go:198-208 | what is said of a target: its name first, then a missing credential, else nothing |
| ConfigPlan.PolicyProblem | internal/configio/configio.go:312-365 | what is said of a policy: its name first, then its first subject that does not stand, then its first grant that does not, else nothing |
| ConfigPlan.PlanActions | internal/configio/handler.go:162-246 | one entry for each thing in the file, in order: create if and only if its name is not stored, unchanged if and only if it is stored as the file has it, with the ids of what it names |
| ConfigImported.UnchangedIs | internal/configio/handler.go:162-246 | a file plans as unchanged if and only if nothing stops it and all of it is stored as written |
| ConfigConverge.ImportConverges | internal/configio/handler.go:269-363 | for a file with no member twice and a plan without problems, the import never fails to resolve a name, and then the same file plans as all unchanged |
| ConfigConverge.DuplicatesNeverSettle | internal/configio/handler.go:186-196 | where groups list each member once, a file that lists one twice does not plan as unchanged |
| ConfigConverge.ImportKeepsDistinct | internal/configio/handler.go:302-316 | no import of any file makes a stored group list a member twice |
| ConfigConverge.ConvergesExactly | internal/configio/handler.go:162-363 | a file that plans without problems is applied and then plans as all unchanged, if and only if it lists no member twice |
| ConfigImported.ImportGives | internal/configio/handler.go:269-363 | after an import that nothing stops, everything in the file is stored as written, everything else is as it was, and what was there keeps its id |
| ConfigImported.ImportKeepsGrantIds | internal/configio/configio.go:309-365 | over an import every grant still of its kind at its place keeps its id |
| ConfigConverge.UnchangedImport | internal/configio/handler.go:269-363 | importing a file that plans as unchanged changes nothing |
| ConfigConverge.PlannedNames | internal/configio/handler.go:165-220 | the names the plan counts on for policies are the names there after groups and targets were applied |
| ConfigWhole.ImportKeepsWhole | internal/configio/handler.go:269-363 | an import leaves every name linked to its id and every reference pointing at something |
| ConfigWhole.ImportsInTurn | internal/configio/handler.go:269-363 | over any run of imports none fails, the gateway stays whole, and each file plans as unchanged once applied |
| ConfigWhole.DuplicatesNeverSettleInTurn | internal/configio/handler.go:162-363 | over any run of imports, a file that lists a member twice never plans as unchanged |
| ConfigMethods.MoveDown | internal/configio/handler.go:250-254 | the inner loop, swapping in place, inserts the element into the sorted front and leaves the rest |
| ConfigMethods.Sorted | internal/configio/handler.go:248-256 | the in-place insertion sort of a copy gives the sorted list |
| Strings.SortPermutes | internal/configio/handler.go:248-256 | sorting keeps every element, as often as it was there |
| Strings.SortOrdered | internal/configio/handler.go:248-256 | the result is in order |
| ConfigMethods.Export | internal/configio/configio.go:224-237 | every group, target and policy once, by name in order |
| ConfigMethods.PlanGroup | internal/configio/handler.go:174-197 | one group's action and first problem |
| ConfigMethods.PlanGroups | internal/configio/handler.go:164-197 | the loop that tracks names seen and names to come gives the plan and the future groups; a group has a problem exactly when its name is blank or used before, or a member is no user |
| ConfigMethods.PlanTargets | internal/configio/handler.go:198-219 | the same for targets; a target has a problem exactly when its name is blank or used before, or a credential does not exist |
| ConfigMethods.PlanPolicies | internal/configio/handler.go:220-244 | the same for policies, resolved in the future state |
| ConfigMethods.MakePlan | internal/configio/handler.go:162-246 | the whole plan, which has no problem exactly when the file stands |
| ConfigMethods.Gateway.constructor | internal/configio/configio.go:165-221 | the configuration as read |
| ConfigMethods.Gateway.ApplyGroups | internal/configio/handler.go:302-316 | the planned group changes, applied one after another |
| ConfigMethods.Gateway.ApplyTargets | internal/configio/handler.go:317-330 | the planned target changes |
| ConfigMethods.Gateway.ApplyPolicies | internal/configio/handler.go:331-362 | policies resolved in the state read again, stopping at the first that does not resolve, with those before it applied |
| ConfigMethods.Gateway.RunImport | internal/configio/handler.go:269-363 | the import leaves the state the steps give, or stops at the first policy that does not resolve with groups, targets and the policies before it applied |
| AsgSyncer.PinCertificate | internal/asg/sync.go:256-293 | the first certificate seen is kept for good, and a different one disagrees |
| AsgSyncer.ProbeInstance | internal/asg/sync.go:189-251 | the observation handed to storage: pins carried over or made, healthy only when everything shown agrees |
| AsgSyncer.Observe | internal/asg/sync.go:136-150 | what is handed to storage for a sighting, probed or marked unhealthy by its cloud health, with the mismatches found |
| AsgSyncer.Syncer.constructor | internal/asg/sync.go:30-48 | no rows, no sessions ended |
| AsgSyncer.Syncer.Upsert | internal/asg/asg.go:523-565 | stores the observation, keeping every pin it does not carry, and revives the row |
| AsgSyncer.Syncer.Instances | internal/asg/asg.go:597-615 | each row once |
| AsgSyncer.Syncer.MarkTerminated | internal/asg/asg.go:569-593 | terminates the rows not kept and returns them, or on a failure keeps the updates made and returns nothing |
| AsgSyncer.Syncer.SeeOne | internal/asg/sync.go:151-168 | the write of one sighting: the row stored, whether it is new, and whether its sessions ended |
| AsgSyncer.Syncer.SeeNext | internal/asg/sync.go:151-168 | one turn of the snapshot loop with its counts |
| AsgSyncer.Syncer.SeeAll | internal/asg/sync.go:126-168 | the loop over the snapshot, as far as storage lets it, with its counts; the sighting storage failed on has been seen and probed |
| AsgSyncer.Syncer.SyncGroup | internal/asg/sync.go:88-181 | one poll, completed or failed: rows, sessions ended and the whole summary, where joined is the growth of the table, retired plus left is the number of sessions ended, and the mismatches are those of the sightings probed |
| AsgProofs.PinsPermanent | internal/asg/sync.go:189-293 | over any run of polls, whatever they find and wherever storage fails, no fingerprint stored before a poll is changed or lost by it and no row disappears |
| AsgWrites.PinnedAtEveryWrite | internal/asg/sync.go:126-168 | within a poll over distinct ids, no single write changes or loses a fingerprint that stood before it |
| AsgWrites.PinnedFromTheWriteOn | internal/asg/sync.go:126-181 | a fingerprint that stands after some writes of such a poll stands after the poll and after every poll that follows |
| AsgWrites.ListedTwiceRepins | internal/asg/sync.go:126-168 | a snapshot that lists a new id twice with two host keys stores the first and then overwrites it with the second |
| AsgWrites.PinnedExactlyWhenDistinct | internal/asg/sync.go:126-168 | no write of any poll over a list of ids changes or loses a fingerprint, if and only if the ids are distinct |
| AsgProofs.StoredHealth | internal/asg/asg.go:646-651 | a row is stored healthy exactly when the sighting is sound against the row before the poll |
| AsgHealth.CloudHealthyIs | internal/cloud/cloud.go:112-122 | the cloud has an instance in use if and only if it is InService and the load balancer says nothing or healthy, in any letter case |
| AsgHealth.HealthInFields | internal/asg/sync.go:136-168 | for any snapshot and wherever storage fails, the row stored for the last sighting of an instance is usable if and only if the cloud has it in use, it has an address, the probe answered, every port is reached, every fingerprint shown is the one pinned, and a first host key is on the console when that can be read |
| AsgHealth.RowsAfterPoll | internal/asg/sync.go:117-181 | after a completed poll over distinct ids the table has exactly the rows it had and the instances listed: each listed one with the state the cloud gave, its pins, and what was shown first where it had none; each other one as terminated with its pins |
| AsgProofs.HealthIsEarned | internal/asg/sync.go:117-168 | for any snapshot and wherever storage fails, the row stored for the last sighting of an instance is healthy if and only if the sighting was sound (every fingerprint agreeing with its pin, no console mismatch, every port reached, the cloud healthy), and then every fingerprint shown is the one pinned |
| AsgProofs.RetirementExact | internal/asg/sync.go:117-181 | a completed poll over distinct ids ends the sessions of a stored instance once if it lost its health or left, otherwise not at all, and what it ended is not healthy |
| AsgHealth.RetirementInFields | internal/asg/sync.go:117-181 | the same in the fields of the rows |
| AsgHealth.ListedRetirement | internal/asg/sync.go:117-168 | a usable instance that is listed has its sessions ended, once, if and only if its sighting does not earn health |
| AsgHealth.LoadBalancerRetires | internal/asg/sync.go:117-168 | a usable instance the load balancer calls anything but healthy is stored as unusable and its sessions are ended once, whatever the probe finds |
| AsgProofs.StrangersUntouched | internal/asg/sync.go:117-181 | no session is ended on an instance that was not stored |
| AsgProofs.AfterPoll | internal/asg/asg.go:569-593 | after a completed poll every row not in the snapshot is terminated |
| AsgProofs.DepartureEnds | internal/asg/sync.go:117-181 | a poll ends the sessions of a stored instance that left, if and only if storage takes every write the poll needs |
| AsgProofs.FailedPollForgets | internal/asg/asg.go:569-593 | a failed poll ends no session of an instance that left, stores it as terminated if and only if it was marked before the failure, and otherwise leaves its row as it was |
| AsgProofs.TerminatedStays | internal/asg/asg.go:569-593 | a row stored as terminated stays so, and has no session ended, by any poll that does not list it, completed or failed |
| AsgProofs.TerminatedForGood | internal/asg/asg.go:569-593 | the same over any run of polls that never list it again |
| AsgSightings.PrefixClears | internal/asg/sync.go:67-76 | clearing keys by prefix takes away exactly the mismatches of that instance and kind |
| AsgSightings.KeysDistinct | internal/asg/sync.go:51-63 | two mismatches have the same key only if they are the same |
| AsgSightings.Sightings.constructor | internal/asg/sync.go:42-48 | nothing reported |
| AsgSightings.Sightings.FirstSighting | internal/asg/sync.go:51-63 | says whether the mismatch is new, and remembers it |
| AsgSightings.Sightings.Cleared | internal/asg/sync.go:67-76 | the loop over the map forgets exactly what it should |
| AsgSightings.RecordedOnceUntilCleared | internal/asg/sync.go:51-76 | over any run a mismatch is remembered if and only if it was seen and not cleared since, so it is recorded once until it clears |
| PollSchedule.Doubled | internal/asg/sync.go:414-419 | the doubling loop leaves min(interval * 2^f, limit) and never exceeds twice the limit |
| PollSchedule.WaitsGrow | internal/asg/sync.go:414-419 | the wait does not shrink as failures add up |
| PollSchedule.Schedule.constructor | internal/asg/sync.go:368-371 | no groups yet |
| PollSchedule.Schedule.Start | internal/asg/sync.go:380-396 | lets the group through when it is due, and marks it running |
| PollSchedule.Schedule.Done | internal/asg/sync.go:399-420 | counts the failure or clears the count, and sets the next poll |
| PollSchedule.OnePollAtATime | internal/asg/sync.go:380-420 | over any run where a poll ends only once it was started, a group has at most one poll running, and the flag says which |
| PollSchedule.StartsWhenDue | internal/asg/sync.go:380-420 | over any such run a start is let through if and only if no poll is running and the wait after the last one is over, min(interval * 2^f, max(10 minutes, interval)) after f failures in a row |
| PollSchedule.BackoffNeverShrinks | internal/asg/sync.go:399-420 | until a success and with the same interval, a later wait is never shorter |
| AccessRepo.Eligible | internal/access/handlers.go:195-217 | the nested loop finds a grant exactly when one qualifies, the one with the shortest maximum, the first of those |
| AccessRepo.Requests.constructor | internal/access/repo.go:15-20 | no requests |
| AccessRepo.Requests.Open | internal/access/repo.go:56-67 | a newest request that waits or is inside its window, none exactly when there is none |
| AccessRepo.Requests.HasGrant | internal/access/repo.go:139-151 | true exactly when an approved request of the tuple is inside its window |
| AccessRepo.Requests.Create | internal/access/handlers.go:75-151 | each refusal in its order, from the input checks to the open request found, or one new pending row; the clock is read for the query and again for the row |
| AccessRepo.Requests.Approve | internal/access/handlers.go:292-357 | each refusal in its order, step-up and a vanished target included, or the row approved from the end of the running grant it extends, otherwise from now; the decision time is a second reading |
| AccessRepo.Requests.Deny | internal/access/repo.go:157-174 | denies a pending request and no other; it alone changes, and is over for good |
| AccessRepo.Requests.Revoke | internal/access/repo.go:178-190 | revokes an approved request and no other; it alone changes, in its status alone, and is over for good |
| AccessRepo.Requests.CloseFor | internal/access/repo.go:214-223 | revokes exactly the pending and approved requests of the subject, and counts them; nobody holds the subject afterwards |
| AccessRepo.Requests.Sweep | internal/access/sweeper.go:30-56 | the due set it reports is exactly the set it flips |
| AccessSteps.CreateExactly | internal/access/handlers.go:75-151 | where the pending request is the newest of its tuple: a request is accepted only if it is well formed, every grant that lets it be asked for allows its minutes (one does), nothing of its tuple waits, and either nothing runs or the newest running grant is the one it extends; and then it is, unless two running grants were asked for at the same time |
| AccessSteps.CreateAdds | internal/access/repo.go:37-49 | an accepted request is one new row that waits, with what was asked, and no other row changes |
| AccessSteps.ApproveExactly | internal/access/handlers.go:292-338 | an approval is accepted if and only if the request waits, the approver has proved themselves where asked, the target is there, and every grant that lets it be asked for (there is one) allows the minutes |
| AccessSteps.ApproveGrants | internal/access/handlers.go:325-357 | the row approved runs for the minutes granted, from the end of the grant it extends while that runs and otherwise from now; no other row changes |
| AccessSteps.DenyDenies | internal/access/repo.go:157-174 | a denial is accepted if and only if the request waits, and changes that row alone |
| AccessSteps.RevokeRevokes | internal/access/repo.go:178-190 | a revocation is accepted if and only if the request was approved, and changes the status of that row alone |
| AccessSteps.RevokeEnds | internal/access/repo.go:139-190 | a revoked grant never waits or runs again, whatever steps follow and at any time, and a user who held no other has no access |
| AccessSteps.DenyFrees | internal/access/repo.go:157-174 | a denied request never waits or runs again, and its tuple admits a new one if and only if nothing else of it waits or runs |
| AccessSteps.CloseRevokes | internal/access/repo.go:214-223 | closing revokes exactly the waiting and approved requests of the subject, all of which are over for good, and leaves the rest |
| AccessSteps.CloseEnds | internal/access/repo.go:214-223 | after a closing no request of the subject is open and nobody has access to it, at any time |
| AccessSteps.SweepExpires | internal/access/repo.go:225-243 | a sweep expires exactly the grants whose end is not after the cutoff, and changes nothing else |
| AccessProofs.TerminalForever | internal/access/repo.go:157-243 | a denied, expired or revoked request is never changed again, whatever steps follow |
| AccessProofs.RunEvolves | internal/access/repo.go:157-243 | over any run what was asked stays, and a grant keeps its decision and window and can only end |
| AccessProofs.RunGood | internal/access/handlers.go:292-357 | every reachable table: windows after their decisions, extensions pointing back at grants of the same tuple, expiry only past the window, each window ending where it should |
| AccessProofs.OpenSeesPending | internal/access/repo.go:56-67 | where the pending request is the newest, the query that returns one row returns it |
| AccessProofs.CreateNewest | internal/access/handlers.go:119-148 | an accepted request is the one pending and the newest of its tuple, if and only if it is no extension or the clock has moved since the grant it extends was asked for |
| AccessProofs.OnePending | internal/access/handlers.go:119-148 | in every table reached by such steps each tuple has at most one pending request, and it is the newest |
| AccessProofs.TieHidesPending | internal/access/repo.go:56-67 | four steps at one time that leave two pending requests in a tuple |
| AccessGrants.SweepsInvisible | internal/access/sweeper.go:30-56 | a run without its sweeps is still a run, and from its end on both queries answer the same at every time |
| AccessGrants.AlikeReply | internal/access/handlers.go:119-148 | whether grants were swept changes no answer to a create, an approval or a denial |
| AccessGrants.ChainLength | internal/access/handlers.go:339-350 | a chain of extensions ends at its first approval plus all its granted minutes |
| AccessGrants.ExtensionsLeaveNoGap | internal/access/handlers.go:339-350 | at every moment of any run between a chain's first approval and its last expiry the user holds an active grant, if each extension was approved while its predecessor was active and none was revoked |
| AccessGrants.GrantedWithinCaps | internal/access/handlers.go:311-338 | the minutes granted are within the maximum of every grant that covers the request at its approval |
| Tap.NoGapNoOverlap | internal/gateway/tap.go:33-84 | for a watcher that missed nothing, the replay in its history and everything its channel carried are one contiguous stretch of the stream |
| Tap.MissingGrows | internal/gateway/tap.go:49-57 | what watchers missed only grows, and where the count stands still no watcher has missed anything more |
| Tap.Tap.SubscriberSeesTheStream | internal/gateway/tap.go:33-84 | a watcher in whose time the count of drops has not grown has, in the replay it was given and what its channel carried, the end of the stream with no gap and no overlap |
| Tap.DropsCounted | internal/gateway/tap.go:49-57 | what a channel carried and what its watcher missed add up to what was written while it watched |
| Tap.Tap.RingIsTheEnd | internal/gateway/tap.go:33-48 | the ring holds min(64 KiB, all bytes written) and is the end of the stream |
| Tap.Tap.constructor | internal/gateway/tap.go:28-30 | an empty tap |
| Tap.Tap.Write | internal/gateway/tap.go:33-58 | the ring takes the chunk; every open channel with room for it gets it at its end, every other channel is as it was, and the drops counted grow by the number of open channels without room; no closed channel is written, and each watcher keeps its replay and its start |
| Tap.Tap.OfferAll | internal/gateway/tap.go:51-57 | the loop over subscribers, in any order: each is offered the chunk once, every drop is counted, and every replay and start stays as it was |
| Tap.Tap.Subscribe | internal/gateway/tap.go:63-84 | a new channel and the ring as it stands, so nothing falls between them |
| Tap.Tap.Cancel | internal/gateway/tap.go:76-83 | closes the channel once; a second cancel or one after Close does nothing |
| Tap.Tap.Close | internal/gateway/tap.go:95-106 | every subscriber's channel is closed once and later writes are discarded |
| Tap.Tap.Receive | internal/gateway/tap.go:63-84 | the reader takes the next chunk, and what was sent stays the same |

## Left out

- SQL, drivers, row scanning and the advisory lock: tables are sequences and maps, and a transaction is one step.
- The PostgreSQL form of the sequence check, which only warns; the SQLite form is modelled.
- SHA-256, HMAC, key derivation and JSON canonicalisation themselves: they are arguments with the premises named above.
- Message wording, the cap of 20 entries in a verify report, audit event details, log lines and metrics.
- ParseAnchor, Line and the hexadecimal form of anchors, and the filters, facets and tallies over the log.
- Exporter.Run: the backoff between flushes; a run here is any sequence of flushes.
- Rounding of floating-point tokens in the limiter, limiterKey and the hash gate.
- The checks of single variables, which are a parameter of `Changes`. A string is a sequence of Unicode characters, as the JSON decoder gives it, so the UTF-8 check of `plain` always holds.
- BootEdit: a character stands for one rune, or for one byte outside a valid rune.
- AsgSyncer.Syncer.SyncGroup: leaves out the audit records and the sightings behind them, which change no row, pin, count or session; the sightings are modelled by themselves.
- The guard against two polls of a group inside SyncGroup, the provider and the ports probed; a poll here starts with a snapshot and the answers of the probes.
- 64-bit overflow of a wait: `PollSchedule.Doubled` bounds it by twice the limit.
- Requests in flight at the same time in `create`, `approve` and the sweep: the code takes no lock across its reads and writes, so steps are taken one after another.
- AccessRepo.Requests.Create: the policy and the grant recorded beside a request are left out.
- AccessRepo.Requests.Approve: the approver and the note recorded with a decision are left out.
- Policy evaluation and Grant.Covers: whether a grant covers a request is an input.
- ConfigMethods.Gateway.RunImport: the API refuses nothing, and the flags that mark a change as applied are not kept.
- ConfigRead.Read: the pages of a list are not modelled, and a failed read, which stops an import, is left out.
- ConfigMethods.PlanGroups: fields that are copied as they are between file and API are one value, as are those of targets and grants.
- Tap: reading a channel is one step of its watcher; the copy of the chunk made for the subscribers is a value.
