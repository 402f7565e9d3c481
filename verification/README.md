# A verified model of antv

antv is a small signature antivirus. A user-space scanner compares files with a signature database
and a SHA-1 whitelist and quarantines what it reports. A kernel module redirects `open()` to a hook
that runs the scanner on the file before the open goes ahead. This project models both, in Dafny, and
proves what they guarantee and where exactly the guarantees end.

`dafny verify dfyconfig.toml` checks the whole project.

| file | part of the system |
|---|---|
| `CString.dfy`, `Stdio.dfy` | the C string and stream routines the code relies on |
| `Signature.dfy` | database lines: parser, printed format, round trip |
| `Scanner.dfy`, `ScannerProperties.dfy` | the window search and the meaning of its verdict |
| `Whitelist.dfy` | chunked search of the whitelist |
| `Driver.dfy`, `DriverProperties.dfy` | directory walk, quarantine, return code, second run |
| `ShortFiles.dfy` | files with fewer bytes than a signature, in any walk |
| `OnAccess.dfy`, `OnAccessInvariant.dfy`, `OnAccessProperties.dfy` | the `open()` hook as an interleaving system with any number of calls |
| `EndToEnd.dfy`, `EndToEndExact.dfy` | hook, driver and engine together |
| `HelperWalk.dfy` | the helper's walk while other actors change the file system |
| `Uncontended.dfy` | one intercepted open on its own: the transition system and the method `NewOpen` agree |
| `Device.dfy` | the character-device variant of the hook |

## How the model is built

Code that changes state is a class or a method over arrays with loops and invariants: `Scanner.Scan`,
`Signature.ExtractSignature`, `Whitelist.UsingFileWhitelistCheck`, `Driver.Host`, `OnAccess.KernelModule`,
`Device.CharDevice`. Each is proved against a function on values (`NameAfterScan`, `Parse`, `FileCode`,
`VisitAll`, `Load`, `Unload`, `Copied`), and the properties are proved about that function. What those
functions decide case by case is stated in terms of the code's own constants (`FileCode`, `LoadMeaning`,
`UnloadMeaning`, `QuarantineMeaning`, `TargetsMeaning`, `StoredByte`).

The two kernel modules are transition systems. A state holds the kernel globals and one program counter
per call; a step is one statement of one call, one action of a helper process, one statement of the
loader, a new `open()`, or any change another program makes to the file system. A helper is a value
inside the call that waits for it, so that "at most one helper runs" is a theorem and not built in.
The helper performs the driver's walk one system call at a time; `HelperIsOnDemand` shows that left
alone it does exactly what the driver does. `UncontendedCall`, `UncontendedOrder`, `LoaderSteps`, `FreeCall`
and `BusyCall` show the same of the systems' steps and the modules' methods.

What the program cannot control is a parameter. `Env` holds the database and whitelist contents, the hash
process, the directories, which modes the scanner can open, and which renames and chmods succeed. The
content of the name buffer before the first scan is arbitrary.

## What turned out

- A signature means "these 20 bytes occur in the file" exactly when its first 19 bytes contain no NUL
  (`SubstringMeaningIff`). A signature with a non-NUL byte after a NUL matches no file at all
  (`DeadSignatureIff`); three of the six shipped entries are of this kind (`ShippedDeadEntries`).
- A file shorter than 20 bytes leaves the name buffer alone: it is reported exactly when the nearest
  longer file scanned before it was detected, and can be quarantined although nothing matches it
  (`ReportedIff`, `ShortFileInheritsVerdict`); every other scanned file gets its own verdict
  (`OwnVerdictIff`, `HistoryIndependentIff`).
- The whitelist check can report a hash that no line starts with (`LongLineMisread`). It is right about a
  hash exactly when the hash stands at no later multiple of 41 characters in a line or starts a line as
  well (`HashExactIff`), and about every SHA-1 hash exactly when that holds for each hexadecimal digest
  (`WhitelistExactIff`); lines of at most 80 characters have no room for one (`ShortLinesExact`).
- Without whitelist file or hash process the driver passes every file by (`UncheckedWalk`,
  `HarmfulFoundIff`).
- A second walk leaves things as they are and reports nothing exactly when mode 0 keeps the scanner out, which
  it does not for root, or no quarantined file is visited again (`SecondWalkIff`).
- A walk loses a file's content exactly when it renames a reported file onto a path that is taken
  (`ContentsKeptIff`).
- While one scan runs, every other open bypasses the hook (`InterceptedIff`).
- A cleanup that restores the entry while a call is still on its way to its second table store does not
  last (`CleanupSafeIff`).
- A walk leaves files unchecked exactly when a file, not the last, can no longer be opened after its
  whitelist check (`ChecksAllIff`, `VanishingRun`); the hook and its own helpers never cause that
  (`OwnFilesNeverVanish`).
- Call a file harmful if the scanner can open and read it, it contains a match and its whitelist check does
  not answer "listed". For a path that is no directory and that no outside program rebinds, an intercepted
  open delegates to a harmful file in four cases: its helper could not be started, since the result of the
  launch is ignored (`UnstartedHelper`); the whitelist does not open or the hash process does not start, since
  the file is then skipped (`UncheckedFile`); the file's rename fails (`StuckFile`); or the path is the
  `.infected` name of a file another helper is renaming (`TakenName`). Under these hypotheses there is no
  other case (`GuaranteedIff`).
- In the device variant every read delivers as many bytes as the last unread write had, from the message as
  the last completed copy left it (`ReadDelivers`). So names of intercepted opens never reach a reader unless
  something writes to the device (`NamesAreNeverDelivered`), although the comment at
  on_access/on_access-1.c:124-131 says a reader obtains them; and a reader is told a given name exactly when
  that many bytes are pending and the string copied last starts with it (`ToldIff`). That string is the device's
  own path when the reader opens the device by the intercepted open(2) (`NameDeliveredIff`), unless another
  open overtakes the reader's (`OvertakenSessionIff`). `dev_read` returns 0 whatever it delivered (`DevRead`).
- include/const.h:36 calls the parsed name NUL-terminated; the code allocates no room for a terminator
  (src/scan.c:236). The model takes the parsed length as the name's length.

## Preconditions taken from the code

Database lines reach as far as the parser reads and names have at most 50 bytes (`WellFormed`); verdict
theorems also need names that are not empty and a database that is not empty (`Named`,
`ProperDatabase`). The hash process, once started, prints something: otherwise the source compares an
uninitialised buffer. What a result means for a digest needs 40 characters without NUL or newline first.
The database file opens. Strings copied to the device's message buffer fit it.

## Model

| member | source | states |
|---|---|---|
| `CString.Strncpy` | src/scan.c:106 | the destination holds the source up to its first NUL and then zeros, for n bytes; later bytes are unchanged |
| `CString.Strcpy` | on_access/on_access-1.c:284 | the destination holds the string and its terminator; later bytes are unchanged |
| `CString.StrncmpMeaning` | src/whitelist.c:41 | strncmp succeeds exactly when the two strings are the same as far as n bytes of them go |
| `Stdio.Stream.Getline` | src/scan.c:53 | returns the next line with its newline and moves past it; at the end returns nothing and does not move |
| `Stdio.Stream.Fgets` | src/whitelist.c:40 | takes at most size - 1 bytes and none past a newline, and moves by what it took |
| `Stdio.LinesCoverStream` | src/scan.c:53 | the lines read from a database concatenate to the database |
| `Stdio.LinesAppend` | src/scan.c:53 | data appended to a database that ends in a newline is read as further lines after the old ones |
| `Signature.TwoCharacterStrtol` | src/scan.c:276-277 | on two characters the parser's number conversion is the C library's rule for base 16, signs and blanks included |
| `Signature.DigitMeaning` | src/scan.c:276 | the hexadecimal digits are exactly the sixteen characters in either case, valued by position |
| `Signature.StoredByte` | src/scan.c:276-286 | the byte stored for any two characters: spelled by two digits, one digit before another character, a blank or sign before a digit (minus negates modulo 256), 0 for anything else |
| `Signature.ReadHex` | src/scan.c:253-290 | the stride-5 loop stores byte k from the two characters at 5(k/2) + 2(k mod 2), reading nothing beyond 49 characters |
| `Signature.ExtractSignature` | src/scan.c:221-296 | name up to the first comma or NUL, signature from three characters further on, all reads inside the line |
| `Signature.ParseInvertsPrint` | rsrc/db.txt:1-6 | parsing a printed entry gives back exactly its name and signature, whatever follows on the line |
| `Signature.PrintIsInjective` | rsrc/db.txt:1-6 | two different entries never print to the same line |
| `Scanner.SigCompare` | src/scan.c:155-175 | counting agreements returns 0 exactly for equal blocks, -1 otherwise |
| `Scanner.CopyName` | src/scan.c:114-120 | the name replaces the first bytes of the buffer and no terminator is added |
| `Scanner.CompareWindows` | src/scan.c:88-130 | found exactly when some offset from 0 to size - 20 matches; the exact name buffer in each case, including no window and an empty name |
| `Scanner.ScanLine` | src/scan.c:53-139 | one database line: either the final report is in the buffer, or this line is no hit and the buffer is as after n + 1 misses |
| `Scanner.Scan` | src/scan.c:11-152 | result code, database cursor (0 on success, unmoved on load failure) and the whole name buffer: the earliest matching line's name over the old bytes, or NUL first, or untouched |
| `ScannerProperties.WindowIsCutSlice` | src/scan.c:104-106 | the compared block depends only on the 20 bytes under the window |
| `ScannerProperties.MatchMeaning` | src/scan.c:104-111 | a window matches exactly when the signature is text followed only by NULs, the window starts with the text, and a NUL follows it there if one does in the signature |
| `ScannerProperties.LiteralWindow` | src/scan.c:104-111 | without NUL in the first 19 bytes a match is plain equality of the 20 bytes |
| `ScannerProperties.SubstringMeaningIff` | src/scan.c:54-61 | the engine agrees with "the signature occurs in the file" on every file exactly when the first 19 signature bytes are not NUL |
| `ScannerProperties.DeadSignatureIff` | src/scan.c:104-111 | a signature matches no file exactly when a non-NUL byte follows a NUL in it |
| `ScannerProperties.DeadEntry` | src/scan.c:68-111 | a database line that spells such a signature reports no file, whatever its name and tail |
| `ScannerProperties.ShippedDeadEntries` | rsrc/db.txt:3-6 | the entries test-4, whitelist-test and pdf-1 report no file |
| `ScannerProperties.VerdictCorrect` | src/scan.c:53-152 | first byte set exactly when some line matches; then the buffer is the earliest such line's name over the old bytes |
| `ScannerProperties.HistoryIndependentIff` | src/scan.c:92-128 | the verdict is independent of the buffer's old content exactly when a window is compared and the first comparison does not match a nameless entry |
| `ScannerProperties.VerdictIgnoresOrder` | src/scan.c:53-139 | the verdict is the same for every permutation of the database lines |
| `ScannerProperties.AppendKeepsReport` | src/scan.c:53-139 | appending entries keeps a detected file detected, with the same reported name |
| `Whitelist.UsingFileWhitelistCheck` | src/whitelist.c:15-49 | 3 exactly without whitelist, 4 exactly without hash process only, else 0 or 1, and 1 exactly when some chunk of the whitelist agrees with what was read from the hash process in its first 40 characters; any non-empty output, short or with NUL bytes |
| `Whitelist.ChunksCoverStream` | src/whitelist.c:38-40 | the chunks read concatenate to the whitelist |
| `Whitelist.ChunksAreWithinLines` | src/whitelist.c:38-40 | every chunk has 1 to 41 bytes and a newline only at its end |
| `Whitelist.ChunkSearchMeaning` | src/whitelist.c:40-45 | some chunk starts with the hash exactly when some line holds it at a multiple of 41 characters |
| `Whitelist.DigestCode` | src/whitelist.c:33-47 | when the output begins with a digest, result 1 exactly when some line holds it at a multiple of 41 characters |
| `Whitelist.ListedLineIsFound` | include/whitelist.h:22-28 | a line that starts with the hash always gives result 1 |
| `Whitelist.HashExactIff` | include/whitelist.h:22-28 | for any whitelist and hash: result 1 exactly when some line starts with the hash, if and only if the hash stands at no later multiple of 41 characters in a line or starts a line as well |
| `Whitelist.WhitelistExactIff` | include/whitelist.h:22-28 | a given whitelist is answered rightly for every hexadecimal digest if and only if every such digest at a later multiple of 41 characters in some line also starts some line |
| `Whitelist.ShortLinesExact` | include/whitelist.h:22-28 | a whitelist whose lines have at most 80 characters is answered rightly for every hash |
| `Whitelist.LongLineMisread` | src/whitelist.c:38-45 | for every hash a line of 81 characters that does not start with it gives result 1 |
| `Driver.Host.WhitelistCheck` | src/whitelist.c:4-13 | 2 exactly when the file does not exist or its mode keeps the effective user out, else the whitelist's answer for its hash |
| `Driver.Host.RenameAndRemovePermission` | src/main.c:373-408 | file system, user id and result for every combination of rename and chmod succeeding; the user id is restored |
| `Driver.Host.CheckFile` | src/main.c:197-243 | one file's whole effect on file system, name buffer and sticky result; cursor 0 before and after; while nothing else touches the file system the early FAIL return (src/main.c:205-211) is never taken |
| `Driver.Host.OnDemand` | src/main.c:168-303 | the walk over a directory's entries or the single file, in order; user id unchanged; result SUCCESS or FOUND |
| `DriverProperties.QuarantineKeepsContents` | src/main.c:379-386 | a quarantine keeps every file content exactly when the rename fails or its target name is free |
| `DriverProperties.QuarantineMeaning` | src/main.c:380-398 | a failing rename changes nothing; otherwise exactly the file moves to its .infected name, with mode 0 if chmod is allowed to uid 0 where the scanner may become root, or to its own uid where it may not, and with its old mode otherwise |
| `DriverProperties.VisitByFlag` | src/main.c:200-232 | a file of at least 20 bytes is quarantined and reported exactly when it opens, its whitelist check answers 0, it loads and matches |
| `DriverProperties.FlaggedIff` | src/whitelist.c:15-49 | that is every harmful file (openable, loadable, matching, not answered "listed") if the whitelist opens and the hash process starts, and otherwise none |
| `DriverProperties.HarmfulMeaning` | src/whitelist.c:15-49 | without whitelist or hash process every readable matching file is harmful; with both, exactly those whose own digest stands at no multiple of 41 characters in a whitelist line |
| `DriverProperties.UncheckedWalk` | src/main.c:201-243 | without whitelist or hash process a walk over any paths changes nothing, not even its result |
| `DriverProperties.HarmfulFoundIff` | src/main.c:186-303 | FOUND exactly when some entry is harmful, if and only if the whitelist opens and the hash process starts or no entry is harmful |
| `DriverProperties.SweepMeaning` | src/main.c:186-246 | quarantining every picked file moves exactly those, keeps all else, and keeps the number of holders of every content |
| `DriverProperties.WalkMeaning` | src/main.c:186-303 | exactly the entries that open, get whitelist code 0, load and match move to their .infected names, locked; all else is untouched; no content is lost; FOUND exactly when there is such an entry |
| `DriverProperties.WalkIgnoresOrder` | src/main.c:186-303 | final file system and result do not depend on the order of the entries or on the old name buffer |
| `DriverProperties.SecondWalkIff` | src/main.c:200-241 | a second walk over the outcome of one that quarantined all it reported, in any order, changes nothing and returns SUCCESS exactly when mode 0 keeps the scanner out or no quarantined file is visited again |
| `ShortFiles.ShortFileInheritsVerdict` | src/main.c:213-224 | a file under 20 bytes is quarantined after a detected file and left alone before it, though no entry matches it |
| `ShortFiles.OwnVerdictIff` | src/main.c:213-224 | a scanned file is reported exactly when it is detected, whatever was scanned before it, exactly when it has at least 20 bytes |
| `ShortFiles.ReportedIff` | src/main.c:186-246 | in any walk a scanned file of at least 20 bytes is reported exactly when it is detected, and a shorter one exactly when the nearest longer file scanned before it was, or, without one, when the name buffer was set at the start |
| `ShortFiles.FoundIffReported` | src/main.c:223-301 | any walk, short files included, ends with FOUND exactly when it did before or some path is reported |
| `ShortFiles.ContentsKeptIff` | src/main.c:379-386 | any walk, short files included, keeps the number of holders of every content exactly when it never renames a reported file onto a path that is taken at that moment |
| `DriverProperties.PathOfOne` | src/main.c:187-195 | an entry other than the dot entries stands for the directory, one slash and the entry |
| `DriverProperties.TargetsMeaning` | src/main.c:175-195 | a start path that is no directory stands for itself, a directory that does not open for nothing, and any other, named with or without a slash at its end, for exactly its entries but the dot entries, each under the directory and one slash, distinct if the entries are |
| `DriverProperties.PathsAppend` | src/main.c:186-246 | the entries are visited in the order listed |
| `DriverProperties.DirectoryScan` | src/main.c:175-248 | for a directory: FOUND exactly when some entry opens, gets whitelist code 0, loads and matches, otherwise SUCCESS and no change; every file that disappears is such an entry; no content is lost |
| `OnAccess.KernelModule.Init` | on_access/on_access.c:192-239 | mutex free, page writable, old entry saved, hook installed |
| `OnAccess.KernelModule.Cleanup` | on_access/on_access.c:241-260 | saved entry stored back, page protected |
| `OnAccess.LoadMeaning` | on_access/on_access.c:224-236 | loading frees the mutex, saves the entry and, on a present or writable page, installs the hook without a fault; on an absent read-only page the store faults |
| `OnAccess.UnloadMeaning` | on_access/on_access.c:241-249 | unloading stores the saved entry back if the page is writable, faults if not, and leaves the page protected |
| `OnAccessProperties.LoaderSteps` | on_access/on_access.c:192-260 | the loader's steps in the transition system, one after the other, have the effect of `KernelModule.Init` and `KernelModule.Cleanup` |
| `OnAccess.KernelModule.NewOpen` | on_access/on_access.c:104-188 | alone: refused with nothing changed if the mutex is held, else the driver's walk on the file if the helper starts and no change if not, hook reinstalled, mutex free, original handler called with the same arguments; lock, first store, helper, second store and release in this order |
| `OnAccess.LoadUnload` | on_access/on_access.c:192-260 | loading and unloading gives back the entry always and the page protection exactly when the page was read-only |
| `OnAccessInvariant.StepKeeps` | on_access/on_access.c:149-187 | every step of every call, helper, loader or other program keeps mutual exclusion, the table rule and each call's contract |
| `OnAccessInvariant.RunKeeps` | on_access/on_access.c:149-187 | the same for runs of any length with any number of calls |
| `OnAccessProperties.MutualExclusion` | on_access/on_access.c:149-183 | while loaded the entry is the original exactly when a call is between its two stores; one call there, mutex held, at most one helper; no helper open enters the hook |
| `OnAccessProperties.HookedCallContract` | on_access/on_access.c:104-188 | every finished intercepted call was refused with no store, or delegated with its own arguments after two stores and exactly one helper run on its file unless the helper could not start |
| `OnAccessProperties.UnloadRestoresWorld` | on_access/on_access.c:192-260 | after any number of loads and disciplined unloads the entry is as before, so is an initially read-only page, and no store faulted |
| `OnAccessProperties.InterceptedIff` | on_access/on_access.c:154-181 | in every reachable loaded state a new open enters the hook exactly when no call is between its two stores, and otherwise delegates unscanned |
| `OnAccessProperties.RefusedIff` | on_access/on_access.c:149-152 | in every reachable state a call at its trylock is refused exactly when another call is between taking and releasing the mutex, and otherwise takes it |
| `OnAccessProperties.NestedIff` | on_access/on_access.c:154-181 | over every run, nesting is recorded exactly when a helper acted while the table pointed to the hook |
| `OnAccessProperties.InternalStepDecreases` | on_access/on_access.c:149-187 | a lexicographic measure over program counters and helper work decreases at every step of a call or helper |
| `OnAccessProperties.AllCallsFinish` | on_access/on_access.c:149-187 | from every state a run of internal steps, in which every helper starts, finishes all calls; no call is ever blocked, because the lock is only tried |
| `OnAccessProperties.UnloadSafeIff` | on_access/on_access.c:181 | after unloading, no later step disturbs the entry exactly when no remaining call is before its second store |
| `OnAccessProperties.CleanupSafeIff` | on_access/on_access.c:241-249 | with any steps between and after the two statements of the cleanup, the restored entry lasts, faultless, until the next load exactly when at the first statement every call has made its second store or was refused |
| `EndToEnd.HelperIsOnDemand` | src/main.c:137-144 | a helper that nothing interleaves with leaves the file system and the name buffer exactly as the driver's walk |
| `HelperWalk.ChecksAllIff` | src/main.c:200-211 | in any run up to its exit a helper checks exactly its files, in order, if and only if no file but the last becomes impossible to open between its check and its open |
| `HelperWalk.VanishingRun` | src/main.c:200-211 | from any loaded idle state, the run of a call on a directory in which another program removes the first file in between, and the walk ends with the remaining files unchecked |
| `HelperWalk.OwnFilesNeverVanish` | on_access/on_access.c:149-187 | in runs without outside changes to the file system no helper loses a file this way, whatever other calls and helpers do |
| `HelperWalk.HelperChanges` | src/main.c:380-397 | in every run, whatever others do, an action of a helper changes the file system only by renaming a file it has scanned to its .infected name, or by setting to 0 the mode of the path its own previous action renamed to |
| `HelperWalk.RenameStage` | src/main.c:382-386 | a file gone or not renamable when its rename is due is left alone and the helper goes on to the next file |
| `Uncontended.UncontendedCall` | on_access/on_access.c:104-188 | every run of one call's own steps that finishes it has the effect of `KernelModule.NewOpen`: globals as before; refused, or delegated with the file system of one scan, or unchanged if the helper did not start |
| `Uncontended.UncontendedOrder` | on_access/on_access.c:149-183 | in every such run the mutex, the table and the scan change in the order of `KernelModule.NewOpen` |
| `Uncontended.CallFinishes` | on_access/on_access.c:149-187 | from every state the own steps of one call can finish it |
| `EndToEnd.ActionNotRebound` | src/main.c:373-408 | no helper action binds another file to a path that is no quarantine name |
| `EndToEnd.StepKeepsClaims` | on_access/on_access.c:149-187 | no step of any actor makes a scanned path reportable again |
| `EndToEnd.PlainNameIsNoQuarantineName` | src/main.c:381 | a path that does not end in .infected is no quarantine name |
| `EndToEnd.NoDetectedFileDelegated` | on_access/on_access.c:149-187 | in every interleaving, an intercepted call delegates while its path is bound to a harmful file only if its own helper could not be started, if the whitelist opens and the hash process starts, the path can be renamed, is no directory and no quarantine name, and no outside program rebinds it |
| `EndToEndExact.GuaranteedIff` | on_access/on_access.c:149-187 | for a path that is no directory and that no outside program rebinds, no harmful file is ever let through if and only if helpers always start, the whitelist opens and the hash process starts, renaming the path succeeds, and the path is not the quarantine name of a file a helper can be sent to and rename |
| `EndToEndExact.UnstartedHelper` | on_access/on_access.c:167-187 | the run in which the helper does not start and the harmful file is opened |
| `EndToEndExact.UncheckedFile` | src/main.c:201-243 | the run in which the helper completes without whitelist or hash process and the harmful file is opened |
| `EndToEndExact.StuckFile` | src/main.c:382-386 | the run in which the rename fails and the reported file is opened |
| `EndToEndExact.TakenName` | src/main.c:380-397 | the run in which another helper renames a reported file onto the path between its scan and its open |
| `Device.CharDevice.constructor` | on_access/on_access-1.c:30-36 | empty zeroed message, nothing to deliver, no opens counted, mutex free; the invariant of all runs holds |
| `Device.CharDevice.NewOpen` | on_access/on_access-1.c:95-157 | refused with nothing changed if the mutex is held, else the file name is in the message and the mutex free again; the size is not updated |
| `Device.CharDevice.DevOpen` | on_access/on_access-1.c:236-245 | refused with nothing changed if the mutex is held, else mutex taken and the open counted |
| `Device.CharDevice.DevRead` | on_access/on_access-1.c:256-269 | a successful copy delivers size bytes of the message, resets the size and returns 0; a failed one changes nothing and returns -EFAULT |
| `Device.CharDevice.DevWrite` | on_access/on_access-1.c:280-288 | the string is the message, its length the size, and the given length is returned |
| `Device.CharDevice.DevRelease` | on_access/on_access-1.c:296-300 | the mutex is free and nothing else changes |
| `Device.StepKeeps` | on_access/on_access-1.c:119-134 | every step keeps: mutex held exactly while a session is open or one call is between trylock and unlock, never both; message terminated; size at most 511 |
| `Device.Run` | on_access/on_access-1.c:119-134 | every run keeps that invariant |
| `Device.AdmittedCall` | on_access/on_access-1.c:119-157 | in every run a call that got the lock is never refused afterwards |
| `Device.RefusedCall` | on_access/on_access-1.c:119-122 | in every run a call that ends refused took its trylock only, found the mutex held there, and changed nothing but its own result |
| `Device.FreeCall` | on_access/on_access-1.c:119-157 | a call that nothing interleaves with, mutex free, ends delegated with its name in the message, as `CharDevice.NewOpen` does |
| `Device.BusyCall` | on_access/on_access-1.c:119-122 | with the mutex held it ends refused with nothing changed |
| `Device.DeviceOpenIff` | on_access/on_access-1.c:236-245 | a device open is refused, with only the refusal counted, exactly while a session is open or a call is inside its critical section |
| `Device.OthersAreShutOut` | on_access/on_access-1.c:119-122 | during a session others change neither message, size nor session, and every intercepted open that tries the lock is refused |
| `Device.SessionIsolation` | on_access/on_access-1.c:236-300 | in one session a write and a read deliver exactly the string written and a second read delivers nothing, whatever opens interleave |
| `Device.WholeSession` | on_access/on_access-1.c:236-300 | open, write, read, read, close runs from every state with a free mutex, delivers the string once and leaves the mutex free |
| `Device.OpensAddUp` | on_access/on_access-1.c:236-300 | over any run every device open is counted or refused, and every counted one is open or released |
| `Device.ReadsAddUp` | on_access/on_access-1.c:256-269 | over any run there is one delivery for each successful read and none for a failed one |
| `Device.ReadDelivers` | on_access/on_access-1.c:256-269 | in every run, a successful read after a completed copy delivers the first bytes of the message as that copy left it, as many as the last write not yet read had, or 0 |
| `Device.ReadSince` | on_access/on_access-1.c:256-269 | the same since any moment at which no call was copying, such as the start of a run without copies |
| `Device.ToldIff` | on_access/on_access-1.c:123-134 | in every run a reader is told a given name exactly when as many bytes are pending as the name has and the string copied last starts with it |
| `Device.NamesAreNeverDelivered` | on_access/on_access-1.c:123-134 | from an empty buffer and without device writes every read of every run delivers the empty string |
| `Device.NameDeliveredIff` | on_access/on_access-1.c:95-134 | an intercepted open, then a reader that opens the device by the intercepted open(2): it is told the file's name exactly when the last written size is the name's length and the name is a prefix of the device's path |
| `Device.OvertakenSessionIff` | on_access/on_access-1.c:123-134 | a session opened without another intercepted open in between, because the reader's own was intercepted earlier: told the name exactly when the last written size is its length |

## Left out

- Loading, unloading and updating from the command line (src/main.c:41-135): process and download plumbing.
- `on_access` in src/main.c, the `_A` twins in src/whitelist.c and the SC_FG flag: a copy of the modelled code that nothing calls.
- The internals of SHA-1 and of the hash process: its output is a function of the file's content whose first 40 characters are the digest.
- C memory artefacts: an unterminated name printed as a string, the fixed sizes of path buffers, stale bytes read past a malformed line, allocation failure.
- Subdirectories as walk entries, and directory reading that observes the walk's own renames: the entries are a fixed list of regular files.
- Quarantining the scanner's own data files: database and whitelist contents are fixed during a run.
- Path aliasing: a path is its string; links and relative names are not resolved.
- Page tables beyond one read-write bit, symbol lookup, device registration and its error codes: kernel interfaces outside the repository.
- The kernel freeing the module's code while a call still executes it: only the table entry and its page are tracked after unloading.
- Driver.Host.WhitelistCheck: popen failing is one setting for the whole run, not a choice at each call.
- DriverProperties.WalkMeaning: assumes that the process does not run out of file descriptors. src/whitelist.c:16 opens the whitelist for every checked file and never closes it, so a walk over more files than the limit allows would get codes 2, 3 or 4 from there on.
- Scanner.LoadFile: the ways in which seeking, measuring or reading a file can fail are one flag of the file, because all of them lead to the same FAIL.
- Device.OpensAddUp: does not model 32-bit wrap-around of the open counter.
- Which process owns a device session: steps on the device are enabled while a session is open, and sharing a descriptor is not modelled.
- samples/ and hijack-linux-sys-calls/: earlier, weaker versions of the two hook modules.
