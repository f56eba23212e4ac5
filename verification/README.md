# Launch-as: a verified model of the broker's decision logic

Launch-as is a Windows service (the broker) that starts programs under managed accounts on behalf of an
authorised caller. Between its Win32 calls it takes decisions that span whole runs, and those are what
this project models and proves things about:

- **Read scope** (`Paths`, `KeyOrder`, `Acl`, `Lease`, `ScopeWorld`, `FileSystems`, `ReadScopes`). While
  a launch is restricted, a scope puts deny and traverse ACEs on the folders around a growing set of
  allowed roots, and takes back exactly those ACEs in the end. `Acl` says what one `SetAccess` writes and
  proves that it keeps everything it did not add; `Lease` runs any number of accounts and foreign editors
  on one object; `ScopeWorld` says what a walk over all folders must keep true after every single write;
  `ReadScopes.ReadScope` is the class with its walk, its ordered entry map, `EnsureRoots`, `Restore` and
  the namespace grants, proved against those.
- **Sessions** (`Sessions`, `ChildProcesses`, `Workers`). `Sessions.SessionTable` is the reservation
  table. `ChildProcesses` is a session's job: its processes start and exit by themselves, and the broker's
  attempts to end them time out or fail. `Workers` is the state machine of all workers, each at the
  granularity of a single mutex acquisition, with proofs over all interleavings: the admission counts,
  the lifetime of a scope, the exclusion between deletion and sessions, one release per reservation, and
  deadlock freedom.
- **Argument pipeline** (`CommandLine`, `AppContainer`, `Invocation`, `Delivery`, `RequestDelivery`). The
  quoting loop, the splitting rules of the Microsoft C runtime as documented under "Parsing C command-line
  arguments", the pseudo-console host's option parser, and the way of the arguments from the accepted
  message through both command lines.
- **Request codec** (`Unicode`, `Json`, `Tokens`, `JsonReaders`, `Names`, `Members`, `RequestRules`,
  `RequestParser`, `RequestValidity`, `RequestBuilder`, `RequestRoundTrip`). The hand-written JSON reader
  and printer, the request grammar and the builders. The text formats are section 7 of RFC 8259
  (strings), section 3 of RFC 3629 (UTF-8) and section 2 of RFC 2781 (UTF-16). The readers are classes
  and methods with the source's loops; each is proved equal to a function over the token stream, and the
  round-trip, rearrangement and rejection properties are proved about that function.
- **Desktop lease** (`DesktopLease`, `DesktopAclLease`, `LeaseHandshake`). Concurrent launchers under the
  pipe lock at read and write granularity; one launcher's lease object with its rollback while the others
  change the same DACLs; and the acquire/release handshake between broker and coordinator over a pipe that
  may break at any step, with the session's job and the per-object outcomes of the lease.
- **Write scope and passwords** (`WriteScope`, `Password`). The budgeted labelling recursion, rejection
  sampling and the in-place shuffle.

An ACE slot carries the account whose lease added it. No decision reads that mark
(`Acl.EditIgnoresProvenance`); it is what "its own ACEs" means in the statements. A Win32 call that may
fail is a nondeterministic error that changes nothing. One promise of the broker holds with an exception:
its lease release and a session's reservation wait for the end of the child's process tree. A process is
left at the release exactly if its creation failed late (`AssignProcessToJobObject` or `DuplicateHandle`),
`TerminateProcess` failed too (src/broker/BrokerProcessLauncher.cpp:267-279, 914-931) and the process has not
exited since: one assigned to the job already is killed when the job closes
(`JOB_OBJECT_LIMIT_KILL_ON_JOB_CLOSE`, src/broker/BrokerProcessLauncher.cpp:773) but not waited for, any
other stands there suspended (`LeaseHandshake.ReleaseAfterExit`, `Workers.ReleasedExactlyOnce`). Unless such
a termination fails, the tree is gone at the release (`LeaseHandshake.ReleaseAfterWholeTree`,
`Workers.ReleasedAfterWholeTree`); `LeaseHandshake.ReleaseBesideSuspended` is a run with the exception.

Wide strings are sequences of 16-bit units, so lone surrogates and NULs are ordinary inputs.

## Model

| member | source | states |
|---|---|---|
| Paths.BelowIsPrefix | src/broker/BrokerReadScope.cpp:33-37 | A key lies strictly below a path exactly if it starts with the path and a backslash |
| Paths.WithinComparable | src/broker/BrokerReadScope.cpp:33-37 | Two ancestors of one path are within one another: allowed roots above a folder form a chain |
| Paths.AboveReadable | src/broker/BrokerReadScope.cpp:379-385 | Every folder above a readable one is readable or an ancestor of a root, so the walk never denies it fully |
| Paths.ExcludedBelow | src/broker/BrokerReadScope.cpp:422-429 | Everything below an excluded folder is excluded, which is why the walk need not descend there |
| Paths.AboveInsideRoot | src/broker/BrokerReadScope.cpp:551-562 | With reduced roots, inside an allowed root only the root itself is at or above one |
| Paths.ReduceRoots | src/broker/BrokerReadScope.cpp:551-562 | The reduced root list is an antichain, covers exactly the same paths as the unreduced one and invents no root |
| Paths.ReducedCover | src/broker/BrokerReadScope.cpp:551-562 | Any sublist of the roots under which every root is readable covers exactly what all of them cover |
| KeyOrder.BelowBlock | src/broker/BrokerReadScope.cpp:399-419 | In an ordered map the scan from `lower_bound(path + "\\")` while `Within` holds reaches exactly the keys strictly below the path |
| Acl.EditKeepsOthers | src/broker/BrokerReadScope.cpp:161-311 | Any `SetAccess` keeps, in order, every ACE the account's lease did not add, and its entry records exactly the account's ACEs that are present |
| Acl.EditRestores | src/broker/BrokerReadScope.cpp:209-256 | `SetAccess(entry, 0)` clears the entry and leaves exactly the ACEs of others, in order |
| Acl.EditIdempotent | src/broker/BrokerReadScope.cpp:225-256 | Repeating a `SetAccess` call changes neither the DACL nor the entry |
| Acl.EditCarries | src/broker/BrokerReadScope.cpp:249-286 | After a call with a mask the DACL carries that ACE, added or reused; an added deny, the ancestor deny included, is the first ACE, an added namespace grant the last |
| Acl.EditDeniesOwner | src/broker/BrokerReadScope.cpp:195-260 | An edit of a folder that the account owns leaves a deny of the owner's right to change the DACL, added or reused |
| Acl.EditGrantsTraverse | src/broker/BrokerReadScope.cpp:163-284 | When traversal is wanted, some ACE of the DACL grants it to the account or an enabled group, added or reused |
| Acl.EditAddsTraverseLast | src/broker/BrokerReadScope.cpp:252-284 | A traverse ACE that the lease adds stands behind all others |
| Acl.EditIgnoresProvenance | src/broker/BrokerReadScope.cpp:210-286 | The decision depends on the ACEs alone, not on who the model says added them |
| Acl.AncestorDenyAllowsTraversal | src/broker/BrokerReadScope.cpp:28-31 | The ancestor deny and the owner deny leave listing and traversal alone; the full deny covers both |
| Lease.OtherStaysConsistent | src/broker/BrokerReadScope.cpp:196-250 | One account's successful edit leaves every other account's record true of the DACL, although the owner-rights deny names no account |
| Lease.StepKeepsInv | src/broker/BrokerReadScope.cpp:161-342 | Every edit, failed edit, erased entry and foreign edit keeps each account's record equal to the lease ACEs present |
| Lease.RunConservesForeign | src/broker/BrokerReadScope.cpp:209-270 | Over any run the foreign ACEs are what the foreign editors alone made of them, in order |
| Lease.RestoreClears | src/broker/BrokerReadScope.cpp:303-331 | A successful `SetAccess(entry, 0)` leaves the account nothing on the object, whatever happened before |
| Lease.ExactRestoration | src/broker/BrokerReadScope.cpp:313-342 | Once all entries are clear, after any run with failures, retries and foreign edits, the DACL equals its foreign ACEs, in order |
| Lease.OriginalRestored | src/broker/BrokerReadScope.cpp:313-342 | Without foreign edits the original DACL comes back, for any number of accounts |
| Lease.TwoAccountsRestore | src/broker/BrokerReadScope.cpp:21-250 | Two accounts' operations in any interleaving with any failures: restoring both, in either order, gives back the original DACL |
| ScopeWorld.WriteKeeps | src/broker/BrokerReadScope.cpp:438-454 | A write is safe for every excluded folder if it leaves the full deny or all of them are already covered strictly below |
| ScopeWorld.EditServes | src/broker/BrokerReadScope.cpp:386-454 | Each of the three edits that `Visit` makes gives the folder the denies and the traverse ACE of its role |
| ScopeWorld.ProperWriteProgress | src/broker/BrokerReadScope.cpp:386-454 | Each of the three kinds of write that `Visit` makes keeps all protection, all passages to allowed roots, all suitable masks and everybody else's ACEs |
| ScopeWorld.OutcomeProgress | src/broker/BrokerReadScope.cpp:303-310 | The same for every outcome of the call, failures included; on success the folder's mask suits its role |
| ScopeWorld.OutcomeKeepsRecords | src/broker/BrokerReadScope.cpp:303-310 | Over all folders at once, every lease ACE stays recorded in an entry with an open handle |
| ScopeWorld.OutcomeKeepsOwned | src/broker/BrokerReadScope.cpp:196-250 | An owner-rights deny is recorded only for folders that the account owns |
| ScopeWorld.ForgetKeeps | src/broker/BrokerReadScope.cpp:408-418 | Dropping an entry with clear flags inside an allowed root forgets no lease ACE |
| ScopeWorld.ClearedIsOthers | src/broker/BrokerReadScope.cpp:332-341 | When every entry is clear, no DACL holds anything the account added |
| ScopeWorld.RecordedMarksAreOwn | src/broker/BrokerReadScope.cpp:196-310 | Every ACE a scope has added names its account, or the owner of a folder that the account owns |
| ScopeWorld.OthersSpared | src/broker/BrokerReadScope.cpp:21-250 | Non-interference over all folders: an operation that changes nothing but its own account's ACEs takes from another account no protection of an excluded folder and no passage to an allowed root |
| ScopeWorld.RecordsSpared | src/broker/BrokerReadScope.cpp:21-250 | Nor does it make another account's entries untrue of any DACL |
| ScopeWorld.ForeignEditKeepsRecords | src/broker/BrokerReadScope.cpp:209-342 | A foreign edit of any number of folders, which may drop, add and reorder ACEs but adds none identical to a leased one, leaves the account's entries true of every DACL |
| ScopeWorld.RunConservesOthers | src/broker/BrokerReadScope.cpp:209-342 | Over any run of operations and foreign edits on all folders, what is not the account's is what the foreign editors alone made of it, so that is what a successful `Restore` leaves |
| ScopeWorld.DoneStays | src/broker/BrokerReadScope.cpp:565-616 | A volume whose walk is finished stays finished while the other volumes are walked |
| ScopeWorld.FinishedWalk | src/broker/BrokerReadScope.cpp:379-453 | Coverage and soundness: below a finished root each excluded folder is under the full user deny with the owner's rights denied there; no readable folder carries a lease deny, no folder above one a lease deny that stops listing or traversal; every folder on the way to an allowed root grants traverse and, short of the root, carries the ancestor deny |
| ReadScopes.InEnabledGroup | src/broker/BrokerReadScope.cpp:235-245 | The group loop answers whether the SID is an enabled group that is not deny-only |
| ReadScopes.Survey | src/broker/BrokerReadScope.cpp:209-248 | The ACE loop keeps exactly what the edit specification preserves and finds existing user, owner and traverse ACEs among it |
| ReadScopes.Assemble | src/broker/BrokerReadScope.cpp:257-280 | The new DACL is added denies, then the kept ACEs in order, then added grants |
| ReadScopes.ReadScope.SetAccess | src/broker/BrokerReadScope.cpp:161-311 | The call has one of its specified outcomes: the edit applied to this DACL and entry alone, nothing, or a failure without effect |
| ReadScopes.ReadScope.Rewrite | src/broker/BrokerReadScope.cpp:195-310 | The part after the DACL was read has the same outcomes |
| ReadScopes.EditIs | src/broker/BrokerReadScope.cpp:249-309 | The parts computed step by step make up the edit specification |
| ReadScopes.ReadScope.Commit | src/broker/BrokerReadScope.cpp:287-310 | The entry's flags change only together with the DACL |
| ReadScopes.ReadScope.Enforce | src/broker/BrokerReadScope.cpp:386-454 | A write by `Visit` is a safe stretch; on success the folder has the denies and the traverse ACE of its role |
| ReadScopes.ReadScope.TryEmplace | src/broker/BrokerReadScope.cpp:357-366 | Inserts a blank entry if there is none, at its place in the order, and records nothing new |
| ReadScopes.ReadScope.ClearBelow | src/broker/BrokerReadScope.cpp:397-419 | On success only entries with a traverse grant are left strictly below the path, and none records a deny |
| ReadScopes.ReadScope.ClearOne | src/broker/BrokerReadScope.cpp:402-418 | One turn of that loop: the entry is cleared and dropped, or kept for its traverse grant and skipped |
| ReadScopes.ReadScope.Visit | src/broker/BrokerReadScope.cpp:344-503 | No exposure window: on any result, after every single write, each excluded folder protected before is protected; on success all folders at or below the path are done (covered, passable or free of denies by their role), within depth 128 |
| ReadScopes.ReadScope.Enter | src/broker/BrokerReadScope.cpp:357-378 | Finds or makes the entry and pins a directory under it; on success the entries are within the quota |
| ReadScopes.ReadScope.Treat | src/broker/BrokerReadScope.cpp:379-454 | The three branches by role: on success the folder and all below it are done |
| ReadScopes.ReadScope.Classify | src/broker/BrokerReadScope.cpp:379-385 | The loop over the roots decides readable and ancestor |
| ReadScopes.ReadScope.Release | src/broker/BrokerReadScope.cpp:386-421 | A folder that became readable ends with no lease deny on it or below it, and a root itself with a traverse ACE |
| ReadScopes.ReadScope.Deny | src/broker/BrokerReadScope.cpp:422-429 | An excluded folder ends with the full deny, which covers all below it |
| ReadScopes.ReadScope.Descend | src/broker/BrokerReadScope.cpp:430-454 | For an ancestor of a root: every single write is safe, its own weakened deny included, which needs all excluded folders below covered first; on success the folder and all below it are done |
| ReadScopes.ReadScope.VisitChildren | src/broker/BrokerReadScope.cpp:438-502 | On success every listed subfolder is done, the earlier ones still |
| ReadScopes.ReadScope.VisitRecord | src/broker/BrokerReadScope.cpp:460-494 | One directory record: skipped unless it is a real subfolder, else visited; every record is charged to the budget |
| ReadScopes.ChildrenCover | src/broker/BrokerReadScope.cpp:438-454 | When all listed children are done, every excluded folder below an ancestor is covered strictly below it |
| ReadScopes.AncestorDone | src/broker/BrokerReadScope.cpp:452-454 | An ancestor with done children and a suitable mask of its own is done |
| ReadScopes.ReadScope.EnsureRoots | src/broker/BrokerReadScope.cpp:505-619 | For any earlier launches: no excluded folder is exposed at any write even on failure; on success the allowed set has grown by exactly the launch's directories and every walked volume is done under the new set |
| ReadScopes.ReadScope.AddRoots | src/broker/BrokerReadScope.cpp:528-562 | The new roots allow exactly what the old roots and the launch's directories allow; on failure the old set stays |
| ReadScopes.RootsGrow | src/broker/BrokerReadScope.cpp:528-562 | A reduced list covers exactly the old roots and the canonical names appended to them |
| ReadScopes.ReadScope.WalkVolumes | src/broker/BrokerReadScope.cpp:563-616 | On success each named volume is done or is an empty drive |
| ReadScopes.ReadScope.WalkVolume | src/broker/BrokerReadScope.cpp:567-615 | One volume, known or new; it is remembered only after its walk succeeded |
| ReadScopes.ReadScope.Restore | src/broker/BrokerReadScope.cpp:313-342 | On success each DACL equals exactly what the account did not add, in order, and the scope is blank; on failure the scope remembers its account and roots for a retry |
| ReadScopes.ReadScope.TakeAllBack | src/broker/BrokerReadScope.cpp:317-331 | Every entry that is not clear afterwards had something to restore and failed by itself; the call succeeds exactly if none did |
| ReadScopes.ReadScope.TakeBack | src/broker/BrokerReadScope.cpp:319-330 | One entry: a clear one is left alone with its DACL, and a failure changes no DACL |
| ReadScopes.OtherScopeSpared | src/broker/BrokerReadScope.cpp:21-342 | Two scopes on the same folders: whatever whole operation of the one changed only its account's ACEs, the other is still valid and keeps all protections and passages |
| ReadScopes.ForeignEditSpared | src/broker/BrokerReadScope.cpp:313-342 | A foreign edit between two operations keeps the whole class invariant, so every operation, `Restore` among them, may follow it with its full contract |
| ReadScopes.ScopeMarksAreOwn | src/broker/BrokerReadScope.cpp:196-310 | A valid scope meets the condition of that statement |
| ReadScopes.ReadScope.EnsureNamespaceDirectories | src/broker/BrokerReadScope.cpp:640-701 | Folders keep their DACLs, others' ACEs stay, and on success each directory carries the account's traverse grant |
| ReadScopes.ReadScope.GrantNamespace | src/broker/BrokerReadScope.cpp:665-697 | One directory: only its DACL may change, and on success it carries the grant |
| ReadScopes.ReadScope.EnterNamespace | src/broker/BrokerReadScope.cpp:668-691 | Finds or makes the entry and pins the directory; on success the entries are within the quota |
| Sessions.ReserveKeepsAdmissible | src/broker/BrokerApplication.cpp:133-177 | Admission is refused exactly at a limit, on a different `restrictAccess` or when an old scope cannot be restored; refused or granted, the table stays admissible, a refusal changes nothing, and a first restricted session starts with a restored scope |
| Sessions.ReleaseKeepsAdmissible | src/broker/BrokerApplication.cpp:179-207 | A release counts down its account only; it fails exactly when the last session's unrestored scope cannot be restored, and only then an entry without sessions stays |
| Sessions.EnsureKeepsAdmissible | src/broker/BrokerReadScope.cpp:505-619 | Using the scope of an account that has sessions keeps the table admissible |
| Sessions.ReserveThenRelease | src/broker/BrokerApplication.cpp:133-207 | A release undoes a reservation: the counts are back, and with a restored scope the account's entry is gone if it was |
| Sessions.SessionTable.TryReserveSession | src/broker/BrokerApplication.cpp:133-177 | The method's new table and answer are those of the reservation function |
| Sessions.SessionTable.ReleaseSession | src/broker/BrokerApplication.cpp:179-207 | The same for the release, with the restore error reported |
| Sessions.SessionTable.HasActiveSession | src/broker/BrokerApplication.cpp:209-214 | Reports exactly whether the account has an entry, a not yet restored scope included, and changes nothing |
| ChildProcesses.StepKeepsSound | src/broker/BrokerProcessLauncher.cpp:682-761 | Processes starting and exiting, failing creations, waits that time out and failing job queries keep: once the job handle is closed nothing of the tree can run |
| ChildProcesses.StepStrands | src/broker/BrokerProcessLauncher.cpp:267-279 | The only step that strands a process is abandoning one that could not be terminated, and the only one that ends this is its exit |
| ChildProcesses.RunStrands | src/broker/BrokerProcessLauncher.cpp:267-279 | Over every run: a process is stranded exactly if one was abandoned without being terminated and has not exited since |
| ChildProcesses.OverMeansGone | src/broker/BrokerProcessLauncher.cpp:682-716 | A closed job means, for every run: nothing can run, and a process is left exactly if the creation failed late, `TerminateProcess` failed and the process has not exited since |
| ChildProcesses.OverStays | src/broker/BrokerProcessLauncher.cpp:682-716 | And that stays so, whatever the processes do |
| ChildProcesses.ReturnsTrueWhenEmpty | src/broker/BrokerProcessLauncher.cpp:682-746 | `TerminateAndWaitForExit` on an open job returns true only when no process is alive |
| ChildProcesses.NextAdvance | src/broker/BrokerProcessLauncher.cpp:710-716 | While the job is open some step of the confirmation loop or some exit is possible and brings the end nearer |
| Workers.StepKeepsInv | src/broker/BrokerApplication.cpp:133-460 | Every step of every worker and every process keeps mutual exclusion, the counts, the agreement on `restrictAccess`, the state of each job and the exclusion of deletion |
| Workers.KeepsChild | src/broker/BrokerPipeServer.cpp:348-390 | Launching, serving, the one attempt, the unconfirmed finish and the retries keep each session's job sound; past them the job is closed |
| Workers.RunKeepsInv | src/broker/BrokerApplication.cpp:133-460 | So does every interleaving |
| Workers.KeepsCounted | src/broker/BrokerApplication.cpp:174-188 | After every step the table's counts are the numbers of live sessions |
| Workers.AdmissionInvariant | src/broker/BrokerApplication.cpp:133-207 | In every reachable state: total = sum = live sessions, at most 4, at most 2 an account, all of an account agree on `restrictAccess`, and an entry without sessions holds an unrestored scope |
| Workers.ScopeOutlivesSessions | src/broker/BrokerApplication.cpp:154-200 | When a worker restores an account's scope, no other session of the account is live, nothing of the worker's own job tree can run, and a process of it is left exactly if a failed creation could not terminate it and it has not exited since |
| Workers.DeletionSparesSessions | src/broker/BrokerApplication.cpp:233-259 | `registration_.Delete` never runs while a session of the account is past the launch mutex and unreleased, although reserving comes before that mutex |
| Workers.ReleasedExactlyOnce | src/broker/BrokerApplication.cpp:269-456 | In every run a reservation is released only when nothing of its job tree can run, and a process is left then exactly if that worker abandoned one it could not terminate and it has not exited; never twice, and exactly once by a finished worker |
| Workers.ReleasedAfterWholeTree | src/broker/BrokerApplication.cpp:269-456 | Without such a failed termination a reservation outlives the whole tree of its session |
| Workers.MutexOrder | src/broker/BrokerApplication.cpp:105-136 | A worker wants a mutex only of strictly higher rank than any it holds, the observer's log mutex included |
| Workers.Unblocked | src/broker/BrokerApplication.cpp:105-316 | From every blocked worker the chain of owners leads to one that is not blocked |
| Workers.NeverStuck | src/broker/BrokerApplication.cpp:105-316 | In every reachable state with an unfinished worker some worker can take a step that brings it nearer to its end |
| Workers.AllCanFinish | src/broker/BrokerApplication.cpp:105-456 | From every reachable state all workers can still finish, whatever mutexes are held and however many processes are left |
| CommandLine.QuoteWindowsCommandLineArgument | src/common/WindowsCommandLine.cpp:13-50 | The quoted text, before a blank or the end, is scanned back to the argument with nothing consumed beyond it |
| CommandLine.BuildWindowsCommandLine | src/common/WindowsCommandLine.cpp:52-74 | Refuses exactly executables with a quote; otherwise splitting the line gives back executable and arguments if and only if none holds a NUL |
| CommandLine.ScanQuoted | src/common/WindowsCommandLine.cpp:13-50 | Quoting is inverted for every argument, with any backslash runs, quotes, blanks or none at all |
| CommandLine.SplitJoined | src/common/WindowsCommandLine.cpp:66-72 | Splitting inverts joining for every list of arguments |
| CommandLine.SplitInvertsBuild | src/common/WindowsCommandLine.cpp:52-74 | The exact condition of the inverse for a whole command line, with the first word under its own backslash rule |
| CommandLine.SplitNulFree | src/common/WindowsCommandLine.cpp:52-74 | No split of any line yields a word with a NUL, so the condition is needed |
| AppContainer.CheckAppContainerOptions | src/common/AppContainerOptions.h:36-53 | The loop with early return accepts exactly enabled or empty lists of at most 32 distinct, well-formed capabilities |
| Invocation.ReadOptions | src/conhost/PseudoConsoleHostInvocation.cpp:42-80 | The option loop stops at the first separator not in value position with the options read so far, or rejects |
| Invocation.ParsePseudoConsoleHostInvocation | src/conhost/PseudoConsoleHostInvocation.cpp:27-94 | The method accepts what the parse function accepts and returns its invocation |
| Invocation.CollectIsSays | src/conhost/PseudoConsoleHostInvocation.cpp:42-80 | Reading a list of settings one by one gives the options that the list, taken as a whole, says: flag once, each pipe once, capabilities in order |
| Invocation.ParsedIff | src/conhost/PseudoConsoleHostInvocation.cpp:27-94 | The accepted language exactly: complete options written in some order, the separator, executable and arguments, any of which may look like an option |
| Delivery.HostArguments | src/broker/BrokerApplication.cpp:374-399 | The insertions produce the words of the host's command line |
| Delivery.HostWordsParsed | src/broker/BrokerApplication.cpp:374-399 | The host parses the broker's words back to the requested options, executable and arguments, even for values equal to `--` or `--pipe-in` |
| Delivery.DeliveredIff | src/conhost/PseudoConsoleHost.cpp:169-170 | End to end through two command lines: target and host receive exactly what was requested if and only if the request is NUL-free, complete and its executable has no quote |
| RequestDelivery.AcceptedDelivered | src/broker/BrokerApplication.cpp:374-409 | From the message: an accepted console launch is delivered exactly if and only if it has an executable, without a quote, and neither arguments nor pipe names hold a NUL |
| RequestDelivery.AcceptedNotDelivered | src/protocol/BrokerProtocol.cpp:869-933 | The condition is needed: a whole message, whose pipe name holds a NUL, is accepted and is not delivered |
| Unicode.Utf16Scalars | src/common/Utf8.h:15-33 | Well-formed UTF-16 is the encoding of its scalar values |
| Unicode.ScalarsUtf16 | src/common/Utf8.h:15-33 | Every encoding of scalar values is well-formed and decodes to them |
| Unicode.DecodeOfUtf8 | src/protocol/BrokerProtocol.cpp:227-251 | Strict UTF-8 decoding inverts the encoder that the reader uses for escapes |
| Unicode.Utf8OfDecoded | src/common/Utf8.h:69-93 | What the decoder accepts is exactly the encoding of its result: no overlong form, no surrogate |
| Unicode.Utf8ToWideIff | src/common/Utf8.h:69-93 | The conversion yields `w` if and only if `w` is well-formed, the bytes are its UTF-8 and they fit an `int` |
| Json.AppendJsonString | src/protocol/BrokerProtocol.cpp:520-545 | The printing loop appends the printed form of the string and keeps what was there |
| Json.AppendUnit | src/protocol/BrokerProtocol.cpp:525-542 | One unit, plain, escaped or as four hexadecimal digits |
| Json.HexTextRead | src/protocol/BrokerProtocol.cpp:196-225 | Four printed hexadecimal digits are read back as the unit |
| Json.BodyOfEscape | src/protocol/BrokerProtocol.cpp:167-194 | A printed escape that is no surrogate is read as its own UTF-8 |
| Json.BodyOfPair | src/protocol/BrokerProtocol.cpp:167-194 | A printed surrogate pair is read as the UTF-8 of its code point |
| Json.BodyOfLone | src/protocol/BrokerProtocol.cpp:167-194 | A surrogate without its partner stops the reader |
| Json.EscapedUnitRead | src/protocol/BrokerProtocol.cpp:167-194 | Every unit but a surrogate may be spelled as an escape, also one that the printer writes plainly, and is read as the same text |
| Json.BodyOfPrinted | src/protocol/BrokerProtocol.cpp:50-112 | Reading a printed body succeeds exactly on well-formed UTF-16 and stops right after the closing quote |
| Json.StringCodec | src/protocol/BrokerProtocol.cpp:50-112 | String round trip for every sequence of units and any text after it, or failure exactly if it is not well-formed |
| Json.AcceptedIsPrintable | src/protocol/BrokerProtocol.cpp:50-112 | Every accepted string, however spelled, is well-formed; decode, encode, decode is decode |
| Tokens.TokensOfRender | src/protocol/BrokerProtocol.cpp:33-165 | Tokens printed with any whitespace between them are read back as those tokens |
| Tokens.DecimalOfText | src/protocol/BrokerProtocol.cpp:114-136 | The reader's digit accumulation inverts decimal printing |
| Tokens.LeadingZero | src/protocol/BrokerProtocol.cpp:114-136 | A leading zero does not change the number read |
| JsonReaders.JsonReader.SkipWhitespace | src/protocol/BrokerProtocol.cpp:157-165 | Drops exactly the leading whitespace |
| JsonReaders.JsonReader.End | src/protocol/BrokerProtocol.cpp:33-37 | True exactly if no token is left |
| JsonReaders.JsonReader.Consume | src/protocol/BrokerProtocol.cpp:39-48 | Takes the expected token or leaves the stream as it was |
| JsonReaders.JsonReader.ReadUnicodeEscape | src/protocol/BrokerProtocol.cpp:196-225 | Reads four hexadecimal digits of either case or fails |
| JsonReaders.JsonReader.UnicodeEscape | src/protocol/BrokerProtocol.cpp:167-194 | Reads one escape with the second half of a pair and appends the code point's UTF-8 |
| JsonReaders.JsonReader.ReadBody | src/protocol/BrokerProtocol.cpp:58-111 | The loop with all its branches computes the body function |
| JsonReaders.JsonReader.String | src/protocol/BrokerProtocol.cpp:50-112 | Succeeds exactly on a string token and returns its text |
| JsonReaders.JsonReader.Unsigned | src/protocol/BrokerProtocol.cpp:114-136 | Succeeds exactly on digits that fit 32 bits, overflow rejected |
| JsonReaders.JsonReader.SkipDigits | src/protocol/BrokerProtocol.cpp:118-121 | The digit loop stops after exactly the leading digits |
| JsonReaders.JsonReader.Boolean | src/protocol/BrokerProtocol.cpp:138-154 | Succeeds exactly on the literals `true` and `false` |
| Members.ReadListBack | src/protocol/BrokerProtocol.cpp:349-378 | Reading a written string list gives it back |
| Members.ReadObjectBack | src/protocol/BrokerProtocol.cpp:322-344 | Reading a written object, nested objects included, gives back its members |
| RequestRules.CollectPermuted | src/protocol/BrokerProtocol.cpp:790-872 | The collected fields do not depend on the order of the members |
| RequestRules.NestedPermuted | src/protocol/BrokerProtocol.cpp:380-428 | Nor on the order inside a nested object |
| RequestRules.RepeatRejected | src/protocol/BrokerProtocol.cpp:346-347 | A repeated name rejects the object wherever the two stand |
| RequestRules.UncheckedRejected | src/protocol/BrokerProtocol.cpp:793-871 | A member that fails its field check rejects the object, whatever follows |
| RequestRules.RenderSpells | src/protocol/BrokerProtocol.cpp:33-165 | The printed members with any whitespace are one spelling of them |
| RequestRules.SpelledMeaning | src/protocol/BrokerProtocol.cpp:758-934 | Any message whose reading gives certain members, in whatever spelling, asks for what these mean, and for nothing beyond the size bound |
| RequestRules.ParsedMeaning | src/protocol/BrokerProtocol.cpp:758-934 | So within the bound a printed message asks for what its members mean, whatever its whitespace |
| RequestRules.RearrangedParsesSame | src/protocol/BrokerProtocol.cpp:758-934 | Messages with the same members in any order and any spelling (escaped names and strings, leading zeros, whitespace) parse to the same result |
| RequestRules.NestedRearrangedParsesSame | src/protocol/BrokerProtocol.cpp:380-428 | Likewise with the members of a nested object reordered, in any spelling |
| RequestRules.RepeatedMemberRejected | src/protocol/BrokerProtocol.cpp:758-934 | Any message that reads as members with a repeated one is rejected, however the two names are spelled |
| RequestRules.RepeatedNestedMemberRejected | src/protocol/BrokerProtocol.cpp:380-428 | So is one with a repeated member in a nested object |
| RequestParser.GatherCollects | src/protocol/BrokerProtocol.cpp:322-344 | Filling fields while reading equals reading all members first and collecting them afterwards |
| RequestParser.FilledIs | src/protocol/BrokerProtocol.cpp:349-378 | Checking each string and the list length while reading equals reading the list and checking it as a whole |
| RequestParser.ReadStringArray | src/protocol/BrokerProtocol.cpp:349-378 | The loop computes that function and consumes exactly the list |
| RequestParser.ReadConsole | src/protocol/BrokerProtocol.cpp:380-408 | The console object: its fields, each at most once, the three pipes required |
| RequestParser.ReadConsoleField | src/protocol/BrokerProtocol.cpp:387-406 | One console member, unknown and repeated names rejected |
| RequestParser.ReadInteractiveLaunch | src/protocol/BrokerProtocol.cpp:410-428 | The interactive object: both fields required, each once |
| RequestParser.ReadField | src/protocol/BrokerProtocol.cpp:791-872 | One request member fills its field and its seen-flag as the grammar says, or rejects |
| RequestParser.ReadRequest | src/protocol/BrokerProtocol.cpp:772-872 | The whole object computes the gathered fields, and the filled structs are those fields |
| RequestParser.ParseBrokerRequest | src/protocol/BrokerProtocol.cpp:758-934 | The imperative parser accepts and returns exactly what the grammar function does |
| RequestValidity.DecidedValid | src/protocol/BrokerProtocol.cpp:873-933 | Any request the decision accepts obeys the rules between fields and carries nothing its operation does not use |
| RequestValidity.AcceptedIsValid | src/protocol/BrokerProtocol.cpp:758-934 | Every parsed request is valid, for every byte string |
| RequestBuilder.BuildManagementRequest | src/protocol/BrokerProtocol.cpp:619-637 | The text is the message of the operation's members |
| RequestBuilder.BeginLaunchRequest | src/protocol/BrokerProtocol.cpp:643-673 | Refuses exactly empty or malformed common fields; else the opened message of the common members |
| RequestBuilder.AppendTexts | src/protocol/BrokerProtocol.cpp:661-669 | The comma loop adds one list member |
| RequestBuilder.BuildConsoleLaunchRequest | src/protocol/BrokerProtocol.cpp:677-725 | The message of the request's members if the builder's own checks and the size bound hold, else nothing |
| RequestBuilder.BuildInteractiveLaunchRequest | src/protocol/BrokerProtocol.cpp:727-756 | The same for an interactive launch |
| RequestRoundTrip.ValidReady | src/protocol/BrokerProtocol.cpp:869-933 | The members a builder writes for a valid request mean that request |
| RequestRoundTrip.RequestCodec | src/protocol/BrokerProtocol.cpp:619-934 | For every request of every operation: the built message parses back to exactly it if and only if it is within the bound and passes the parser's checks |
| RequestRoundTrip.BuiltParses | src/protocol/BrokerProtocol.cpp:619-934 | What any builder returns parses to its request if and only if that request passes the parser's checks (and, for management, fits) |
| RequestRoundTrip.BuiltRefuses | src/protocol/BrokerProtocol.cpp:643-756 | Of the requests the parser would take, the builders refuse exactly launches without arguments and launches that do not fit |
| DesktopLease.BuildDaclWithoutLease | src/launcher/InteractiveDesktopAclLease.cpp:248-298 | The copying loop removes the lease ACE, and refuses unless there is exactly one |
| DesktopLease.WithoutIsRemoval | src/launcher/InteractiveDesktopAclLease.cpp:248-298 | What is left is the DACL with that one position taken out, everything else in order |
| DesktopLease.StepKeepsInv | src/launcher/InteractiveDesktopAclLease.cpp:29-539 | Every step of any launcher, its death and any foreign edit keep: one lock holder, a read that is still current, one grant per leased object |
| DesktopLease.NoLostGrant | src/launcher/InteractiveDesktopAclLease.cpp:381-539 | In every reachable state each launcher's grant stands exactly once where it is leased and nowhere else, and no write is refused |
| DesktopLease.OtherStepKeepsCount | src/launcher/InteractiveDesktopAclLease.cpp:381-539 | No step of another launcher and no foreign edit changes how often a launcher's grant stands on any object; this is what waiting for the lock relies on |
| DesktopLease.WriteKeepsOthers | src/launcher/InteractiveDesktopAclLease.cpp:413-508 | A write keeps everything that is not the writer's own grant, in order |
| DesktopLease.LauncherKeepsOthers | src/launcher/InteractiveDesktopAclLease.cpp:381-539 | No launcher step touches a foreign ACE or another launcher's grant |
| DesktopLease.ReleasedLeavesForeign | src/launcher/InteractiveDesktopAclLease.cpp:454-539 | An object nobody leases holds only foreign ACEs |
| DesktopLease.ReleasedRestoresOriginal | src/launcher/InteractiveDesktopAclLease.cpp:454-539 | Without foreign edits it holds its original DACL, after any interleaving of any number of launchers |
| DesktopAclLease.InteractiveDesktopAclLease.WriteGrant | src/launcher/InteractiveDesktopAclLease.cpp:389-427 | On success this object had no grant and has one, and taking it out again gives back the DACLs; on failure nothing changes |
| DesktopAclLease.InteractiveDesktopAclLease.Apply | src/launcher/InteractiveDesktopAclLease.cpp:381-452 | The object is marked leased exactly if its grant was written, also when the verification then fails; but for the grant, the DACLs are those found under the lock |
| DesktopAclLease.InteractiveDesktopAclLease.Verify | src/launcher/InteractiveDesktopAclLease.cpp:434-451 | Success means exactly one grant stands |
| DesktopAclLease.InteractiveDesktopAclLease.Remove | src/launcher/InteractiveDesktopAclLease.cpp:473-539 | Takes out exactly the own grant and unmarks the object, or changes neither and fails; all other ACEs stay in order as found under the lock |
| DesktopAclLease.InteractiveDesktopAclLease.TakeGrant | src/launcher/InteractiveDesktopAclLease.cpp:485-512 | Under the lock: the one grant is out and everything else in place, or nothing changed |
| DesktopAclLease.InteractiveDesktopAclLease.VerifyGone | src/launcher/InteractiveDesktopAclLease.cpp:515-538 | Success means that no grant stands |
| DesktopAclLease.InteractiveDesktopAclLease.Release | src/launcher/InteractiveDesktopAclLease.cpp:454-471 | Every object is tried: one stays leased only where its own removal failed, and the result is success exactly if none did |
| DesktopAclLease.InteractiveDesktopAclLease.RemoveAll | src/launcher/InteractiveDesktopAclLease.cpp:457-464 | The loop: three removals, each with its own outcome |
| DesktopAclLease.InteractiveDesktopAclLease.Acquire | src/launcher/InteractiveDesktopAclLease.cpp:308-379 | Success: all three grants stand. Failure with a successful rollback: grants and marks are as before |
| DesktopAclLease.InteractiveDesktopAclLease.ApplyAll | src/launcher/InteractiveDesktopAclLease.cpp:369-378 | The loop with its rollback: all three, or, if the rollback succeeds, none and all counts as before |
| DesktopAclLease.InteractiveDesktopAclLease.Destroy | src/launcher/InteractiveDesktopAclLease.cpp:302-306 | The destructor tries every leased object and closes the handles |
| DesktopAclLease.RolledBack | src/launcher/InteractiveDesktopAclLease.cpp:369-377 | Adding some grants and then releasing all that were added gives back every count |
| DesktopAclLease.NothingLeft | src/launcher/InteractiveDesktopAclLease.cpp:454-471 | A successful release leaves nothing leased |
| LeaseHandshake.StepKeepsInv | src/launcher/InteractiveDesktopLeaseCoordinator.cpp:135-236 | Every step of broker, coordinator, processes and pipe keeps: the ends in step while the pipe is intact, the child as its phase says, and the lease marks equal to the grants, with a flag for each failed removal |
| LeaseHandshake.RunKeepsInv | src/launcher/InteractiveDesktopLeaseCoordinator.cpp:135-236 | Every run keeps the two ends in step while the pipe is intact, with breaks and crashes anywhere |
| LeaseHandshake.GrantsWhileAlive | src/broker/BrokerProcessLauncher.cpp:1104-1174 | While any process of the child's tree can run and the pipe is intact, all three grants stand |
| LeaseHandshake.ReleaseAfterExit | src/broker/BrokerApplication.cpp:436-456 | For every run from the start: the release can be sent only when nothing of the tree can run, after timed-out waits, failed job queries and unconfirmed finishes too; a process is left then exactly if the run abandoned one that could not be terminated and it has not exited |
| LeaseHandshake.ReleaseAfterWholeTree | src/broker/BrokerApplication.cpp:436-456 | In a run without such a failed termination the release waits for the end of the whole tree |
| LeaseHandshake.LeaseObtained | src/broker/InteractiveDesktopLeaseClient.cpp:96-150 | An acquisition without trouble is a run of both ends, and ends with the lease held by the broker and all three grants standing |
| LeaseHandshake.ReleaseBesideSuspended | src/broker/BrokerProcessLauncher.cpp:900-939 | The exception happens in a run from the start: the lease is obtained, the creation fails late, the new process cannot be terminated, and the release can be sent while it stands there |
| LeaseHandshake.UnconfirmedReleasesNothing | src/broker/BrokerApplication.cpp:439-450 | An unconfirmed finish sends nothing and leads back to ending the tree |
| LeaseHandshake.ResumedUnderLease | src/broker/BrokerApplication.cpp:346-372 | The child is resumed only after the lease was acquired, and under it unless the pipe broke |
| LeaseHandshake.ReturnsWithoutGrants | src/launcher/InteractiveDesktopLeaseCoordinator.cpp:180-236 | At every moment the grants stand exactly where the lease object marks them, and if the last `Release` before the return reported no error, none stands |
| LeaseHandshake.StepsLeadAway | src/launcher/InteractiveDesktopLeaseCoordinator.cpp:149-236 | Each step of the coordinator brings its return nearer, and no other step takes it away |
| LeaseHandshake.NeverWaits | src/launcher/InteractiveDesktopLeaseCoordinator.cpp:149-236 | With a broken pipe, a coordinator that has not returned can always take a step of its own |
| LeaseHandshake.BrokenPipeReturns | src/launcher/InteractiveDesktopLeaseCoordinator.cpp:149-236 | So every schedule from a broken pipe ends: at most 21 steps of the coordinator, after which it has returned |
| WriteScope.HasLowLabel | src/broker/BrokerWriteScope.cpp:135-171 | The loop finds a Low label with no-write-up that applies to the object, for directories also to its children |
| WriteScope.WriteScopeBudget.ConsumeObject | src/broker/BrokerWriteScope.cpp:33-46 | Charges one object or, after the deadline or when none is left, fails without charging |
| WriteScope.Inspect | src/broker/BrokerWriteScope.cpp:190-234 | Looks at one object, and goes on only for objects that are no reparse point and no multiply-linked file; others are skipped below the root |
| WriteScope.Relabel | src/broker/BrokerWriteScope.cpp:235-261 | Changes at most this object, only to Low; goes on only if it is Low |
| WriteScope.LabelChildren | src/broker/BrokerWriteScope.cpp:275-328 | All children walked, or an error; labels change only on relabelable objects and only to Low |
| WriteScope.LabelTree | src/broker/BrokerWriteScope.cpp:179-328 | Terminates; never goes past depth 128; every object looked at was charged to the budget first; on success every object reachable through available entries is Low |
| WriteScope.PinAncestors | src/broker/BrokerWriteScope.cpp:347-386 | Success means every ancestor opened and none is a reparse point |
| WriteScope.LabelRoot | src/broker/BrokerWriteScope.cpp:330-388 | No label changes unless the root's validation and its ancestors' checks passed |
| WriteScope.PrepareWriteScope | src/broker/BrokerWriteScope.cpp:390-417 | In both trees together at most the maximum number of objects is looked at; on success both roots and everything reachable in them is Low |
| WriteScope.ReachableLater | src/broker/BrokerWriteScope.cpp:235-261 | Labelling never makes a reachable object unreachable, so the order of the two trees does not matter |
| WriteScope.RelabelableIsEligible | src/broker/BrokerWriteScope.cpp:205-215 | An object that may be relabelled is in the tree and is neither a reparse point nor multiply linked |
| WriteScope.ExcludedKeepsLabel | src/broker/BrokerWriteScope.cpp:205-215 | Reparse points, multiply-linked files and objects outside the tree keep their label on any result |
| Password.Unbiased | src/broker/BrokerPassword.cpp:40-58 | For every bound from 1 to 2^32 equally many accepted 32-bit values lead to each index |
| Password.RandomSource.Index | src/broker/BrokerPassword.cpp:40-58 | The rejection loop returns the index of the first accepted draw, or fails with the source |
| Password.IndexOfFirstAccepted | src/broker/BrokerPassword.cpp:45-57 | Rejected draws are consumed and do not influence the index |
| Password.EquallyLikely | src/broker/BrokerPassword.cpp:40-58 | For any list of bounds, every list of indices comes from equally many sequences of accepted draws |
| Password.AcceptingExactly | src/broker/BrokerPassword.cpp:40-58 | Those are exactly the draws, one a bound, that give the indices |
| Password.AcceptedGive | src/broker/BrokerPassword.cpp:40-58 | They give them whatever draws follow, and leave those |
| Password.SelectCharacter | src/broker/BrokerPassword.cpp:60-70 | The character is the one of the alphabet at the index of the first accepted draw |
| Password.ShuffleInjective | src/broker/BrokerPassword.cpp:130-139 | Different choices give different orders of distinct elements |
| Password.ShuffleSurjective | src/broker/BrokerPassword.cpp:130-139 | Every order is reached by some choices |
| Password.ShuffleBijective | src/broker/BrokerPassword.cpp:130-139 | Each order of distinct elements comes from exactly one sequence of choices |
| Password.ShuffleKeeps | src/broker/BrokerPassword.cpp:130-139 | The shuffled list has the same elements, repetitions included |
| Password.Shuffle | src/broker/BrokerPassword.cpp:130-139 | The in-place loop leaves the array shuffled by exactly the indices that the draws give for its bounds |
| Password.SelectCharacters | src/broker/BrokerPassword.cpp:111-129 | The two loops fill the array with the characters at the indices that the draws give, each in its position's alphabet |
| Password.PasswordIsStrong | src/broker/BrokerPassword.cpp:109-139 | Whatever the choices, the password is an order of the selected characters, of full length, with allowed characters only and one of each class |
| Password.NoChoiceIsFavoured | src/broker/BrokerPassword.cpp:109-139 | Every choice of characters and every choice of swaps comes from equally many sequences of accepted draws, and each of those makes the password of these choices |
| Password.GenerateBrokerPassword | src/broker/BrokerPassword.cpp:109-139 | The password is exactly the one that the draws make: the characters at the first indices, shuffled by the indices after them; it is strong, and there is none exactly if the draws run out |

## Left out

- Effective access: coverage is stated as "carries the deny". An identical pre-existing ACE is reused wherever it stands, so an access-check version would need the assumption that explicit denies come first.
- ReadScopes.ReadScope.Visit: the tree, its owners and its canonical names are fixed during a run; concurrent tree changes, hard links, NTFS case rules and file-ID opens are not modelled. Deadlines are an oracle that may time out at any check, and the object budget bounds the walk without a count of what it examined.
- Lease.StepKeepsInv: foreign edits happen between atomic `SetAccess` calls and add no ACE identical to one currently leased; an edit by another program inside a read-modify-write is not modelled. Over all folders of a `ReadScope` they happen between its operations.
- DesktopLease.StepKeepsInv: foreign edits happen while no launcher holds the pipe lock; `SetEntriesInAclW` inserts one ACE for a fresh SID at any position, and logon SIDs are distinct and fresh.
- Workers.NeverStuck: some step is always possible; that the scheduler is fair and that a foreign call returns is not stated.
- A null DACL and every failing Win32 call in `SetAccess` are one nondeterministic failure without effect; the writable reopening is a flag.
- Namespace paths are not folder paths, and the dynamic loading of ntdll and the session number are not modelled.
- In the session table a scope is the one bit "holds unrestored ACEs", whether a restoration succeeds is a parameter, and account names up to case are numbers.
- Observer callbacks, log routing and audit records, except the log mutex in the lock order.
- The splitting rules are written from the documentation of the Microsoft C runtime; the runtime itself is not part of this model.
- `MultiByteToWideChar` and `WideCharToMultiByte` are specified by the RFCs; the shift and mask arithmetic of the UTF-8 encoder is written as division and remainder. `WideToUtf8` is left out.
- The builders' literal pieces of text are written as tokens of the same bytes, and a launch request is a record instead of separate parameters. The seen-flags are one set of names, and a member's name is looked up once.
- Responses, the lease messages' text (`BuildInteractiveLease*`, `ParseInteractiveLease*`) and pipe reads and writes: easier copies of the request codec, and I/O.
- Whether a SID is a logon SID is a parameter of the desktop lease; its status fields and ACE fingerprints are folded into the returned error.
- In the handshake, peer validation, message contents and the cancellation event are nondeterministic choices; a message already sent may be read or lost after a break. When the broker itself dies, its job kills the tree some time later.
- A job's processes are counted and not named; that terminating the job makes its processes exit, and that a process cannot leave the job, is the system's promise.
- The write scope walks a fixed tree whose nodes say how each open fails; setting a label is atomic; impersonation and the construction of the label are not modelled, and lexical normalisation with `ValidateScopeRoot` is a validation result given with the root.
- The system's random generator is a finite sequence of 32-bit draws that then fails; that draws are uniform and independent is its promise, not a statement here. Clearing memory is not modelled.
- `BrokerServiceInstaller`, `BrokerAdminCli`, `BrokerDataDirectory`, `BrokerAudit`, `LaunchLog`, the pseudo-console and terminal relays, logon tokens, app-container profiles, the enrolment store, `LauncherOptions` and the control-pipe listener: plumbing around foreign calls, or flat branches.
- Win32 error codes other than those the code itself compares or returns by name are not told apart.
