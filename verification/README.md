# ProcessPunisher: a Dafny model of the file-access guard's decision pipeline

ProcessPunisher watches one directory subtree through kernel file-I/O trace
events. It kills any process that enumerates, reads, writes or queries a file
under that root, unless the process is Notepad or has the reserved id 0 or 4.
Each successful kill adds the process name to an on-screen victims list.

This project models the per-event pipeline of `MainWindow`:

- `CaseFold`: ordinal case-insensitive comparison (`StringComparison.OrdinalIgnoreCase`).
  Characters are folded to upper case, one at a time.
- `Protection`: the path containment filter `IsFileUnderOurProtection`.
  It is a plain prefix test, and it has no path-separator boundary.
- `Enforcement`: the kill decision `KillIfUnknown`. The operating system's
  kill is an oracle outcome, `Killed` or `Failed(error)`. The victims list is
  an append-only `seq<string>`, and its text form is also modelled.
- `Events`: the four handlers `OnAppReadsDirectory`, `OnAppReadsFile`,
  `OnAppWritesFile` and `OnAppGetsFileNfo`. They are one classifier over a
  four-variant event type. Directory enumeration is judged by its directory
  name. The other three kinds are judged by their file name.
- `EventStream`: the background worker's consume loop. The victims log is a
  fold of the handler over a stream of observations. An observation is an
  event paired with the kill outcome the OS would report for it.

The model keeps the containment test exactly as written. So
`/guard/vaultage/file.txt` is protected under the root `/guard/vault`
(`Protection.BoundaryExamples`). This sharp edge is part of the design, so it
is reproduced and not corrected.

The model does not require the root to be non-empty, because the source's
predicate does not need that. With an empty root, every path is protected
(`Protection.EmptyRootProtectsEverything`).

## Model

| member | source | states |
|---|---|---|
| CaseFold.FoldChar | ProcessPunisher/ProcessPunisher/MainWindow.xaml.cs:107 | a folded character is never a lower-case letter; lower-case letters become upper-case letters, and every other character is left as it is |
| CaseFold.SameFoldIffCaseVariant | ProcessPunisher/ProcessPunisher/MainWindow.xaml.cs:107 | two characters compare equal ignoring case exactly when they are identical, or are the same ASCII letter in opposite cases |
| CaseFold.Upper | ProcessPunisher/ProcessPunisher/MainWindow.xaml.cs:107 | the upper-cased string has the same length, and each character is the fold of the character at the same position |
| CaseFold.EqualsIgnoreCaseIffSameUpper | ProcessPunisher/ProcessPunisher/MainWindow.xaml.cs:70 | an OrdinalIgnoreCase equality holds exactly when both strings have the same upper-cased form |
| CaseFold.UpperIdempotent | ProcessPunisher/ProcessPunisher/MainWindow.xaml.cs:107 | upper-casing twice is the same as upper-casing once |
| CaseFold.EqualsIgnoreCaseIsEquivalence | ProcessPunisher/ProcessPunisher/MainWindow.xaml.cs:107 | comparing ignoring case is reflexive, symmetric and transitive |
| Protection.IsUnderProtection | ProcessPunisher/ProcessPunisher/MainWindow.xaml.cs:100-113 | a path shorter than the root is never protected; a path is protected exactly when it is at least as long as the root and each of its first len(root) characters matches the root's, ignoring case |
| Protection.ProtectedIffUpperPrefix | ProcessPunisher/ProcessPunisher/MainWindow.xaml.cs:100-113 | a path is protected exactly when the upper-cased root is a prefix of the upper-cased path |
| Protection.CaseVariantOfRootProtected | ProcessPunisher/ProcessPunisher/MainWindow.xaml.cs:107-112 | the root itself, and every case variant of it, is protected |
| Protection.ExtensionStaysProtected | ProcessPunisher/ProcessPunisher/MainWindow.xaml.cs:107 | if a path is protected, then the path followed by any suffix is protected too |
| Protection.RootFollowedByAnythingProtected | ProcessPunisher/ProcessPunisher/MainWindow.xaml.cs:107 | any case variant of the root followed by any text is protected, even without a separator after the root |
| Protection.EmptyRootProtectsEverything | ProcessPunisher/ProcessPunisher/MainWindow.xaml.cs:102-112 | with an empty root, every path is protected |
| Protection.BoundaryExamples | ProcessPunisher/ProcessPunisher/MainWindow.xaml.cs:100-113 | under /guard/vault: /guard/vault/secrets.txt, /guard/vaultage/file.txt and /GUARD/Vault are protected; /guard/vaul and /guard/other/vault are not |
| Enforcement.Decide | ProcessPunisher/ProcessPunisher/MainWindow.xaml.cs:68-81 | the allowlist is checked first, then the reserved ids 0 and 4; a kill is attempted exactly when neither applies, and its outcome is the OS's |
| Enforcement.KillIfUnknown | ProcessPunisher/ProcessPunisher/MainWindow.xaml.cs:68-98 | the log either stays the same or grows by exactly the process name; it grows exactly when the name is not allowlisted, the id is not reserved and the kill succeeds |
| Enforcement.AllowlistedIffUpperIsNotepad | ProcessPunisher/ProcessPunisher/MainWindow.xaml.cs:70 | a name is exempt exactly when it upper-cases to NOTEPAD |
| Enforcement.AllowlistedNeverKilled | ProcessPunisher/ProcessPunisher/MainWindow.xaml.cs:70 | Notepad in any letter case never has a kill attempted, and the log is unchanged |
| Enforcement.ReservedIdNeverKilled | ProcessPunisher/ProcessPunisher/MainWindow.xaml.cs:73 | ids 0 and 4 never have a kill attempted, whatever the name, and the log is unchanged |
| Enforcement.FailedKillSwallowed | ProcessPunisher/ProcessPunisher/MainWindow.xaml.cs:75-95 | a kill that fails, for any reason, leaves the log unchanged, and the decision still returns normally |
| Enforcement.AllowlistExamples | ProcessPunisher/ProcessPunisher/MainWindow.xaml.cs:70 | notepad, NOTEPAD and Notepad are exempt; the empty name, Notepad.exe, Notepa and Chrome are not |
| Enforcement.Lines | ProcessPunisher/ProcessPunisher/MainWindow.xaml.cs:87 | the reference text of a log has at least one character (its line break) per victim |
| Enforcement.LinesAppend | ProcessPunisher/ProcessPunisher/MainWindow.xaml.cs:87 | adding a victim at the end of the log adds a line break and its name at the end of the reference text |
| Enforcement.VictimsText | ProcessPunisher/ProcessPunisher/MainWindow.xaml.cs:87 | the text built by repeated `Text += "\n" + name` is the list's initial text followed by a line break and name for each victim, in log order |
| Enforcement.VictimsTextGrows | ProcessPunisher/ProcessPunisher/MainWindow.xaml.cs:87 | extending the log only extends the victims text: the earlier text is always a prefix of the later one |
| Events.OnEvent | ProcessPunisher/ProcessPunisher/MainWindow.xaml.cs:115-145 | an event whose path is outside the root leaves the log unchanged; the log grows by exactly the process name when the path is protected, the process is neither exempt nor reserved, and the kill succeeds; otherwise it is unchanged |
| Events.KindIrrelevant | ProcessPunisher/ProcessPunisher/MainWindow.xaml.cs:115-145 | all four event kinds give the same result for the same path, id and name |
| Events.Scenarios | ProcessPunisher/ProcessPunisher/MainWindow.xaml.cs:115-145 | Chrome reading /guard/vault/secrets.txt is killed and logged, and so is Chrome writing under /guard/vaultage; lower-case notepad, process id 4 and a path outside the root are spared; a failed kill logs nothing |
| EventStream.Run | ProcessPunisher/ProcessPunisher/MainWindow.xaml.cs:152-158 | the log never has more entries than there were events |
| EventStream.Victims | ProcessPunisher/ProcessPunisher/MainWindow.xaml.cs:83-95 | the reference list of killed names has at most one entry per event |
| EventStream.VictimsAppend | ProcessPunisher/ProcessPunisher/MainWindow.xaml.cs:115-145 | the victims of two concatenated streams are the victims of the first followed by those of the second |
| EventStream.RunIsVictims | ProcessPunisher/ProcessPunisher/MainWindow.xaml.cs:115-145 | folding the handler over the stream gives exactly the names of the killed processes, in stream order |
| EventStream.RunAppend | ProcessPunisher/ProcessPunisher/MainWindow.xaml.cs:83-95 | handling a stream in two pieces gives the first piece's log followed by the second's: the log is append-only, and no event's handling depends on earlier ones |
| EventStream.RunPrefixMonotone | ProcessPunisher/ProcessPunisher/MainWindow.xaml.cs:83-95 | the log after a shorter prefix of the stream is a prefix of the log after a longer one |
| EventStream.RunExtends | ProcessPunisher/ProcessPunisher/MainWindow.xaml.cs:115-145 | every event is evaluated whatever happened before, and it only extends the log: the log after events[..i+1] is the log after events[..i], plus event i's process name exactly when that event kills its process |
| EventStream.FailureDoesNotStopLaterKills | ProcessPunisher/ProcessPunisher/MainWindow.xaml.cs:92-95 | a failed kill leaves the log unchanged, and a later event that kills still appends its name |
| EventStream.KillPositions | ProcessPunisher/ProcessPunisher/MainWindow.xaml.cs:115-145 | the positions of killing events, strictly increasing and complete: every listed position kills, and every killing position is listed |
| EventStream.RunListsKillsInOrder | ProcessPunisher/ProcessPunisher/MainWindow.xaml.cs:83-95 | the log has one entry per killing event, and its k-th entry is the name from the k-th killing event |
| EventStream.VictimsTextGrowsWithStream | ProcessPunisher/ProcessPunisher/MainWindow.xaml.cs:83-89 | as the stream is consumed, the on-screen victims text only grows: the text after a shorter prefix of the stream is a prefix of the text after a longer one |
| EventStream.ProcessEvents | ProcessPunisher/ProcessPunisher/MainWindow.xaml.cs:152-158 | consuming the stream event by event yields exactly the killed processes' names, in stream order |

## Left out

- Folder dialog and `App.Current.Shutdown` (lines 30-38, 61-65): these are UI. The protected root is a parameter.
- Trace session creation, kernel-provider enabling, handler registration and `session.Dispose` on exit (lines 40-54, 160-166): these belong to a foreign tracing library. `Source.Process()` is modelled only as the in-order loop over an event sequence.
- `BackgroundWorker` and `Dispatcher.BeginInvoke` (lines 56-59, 83-89): these are thread hand-off. The log append is modelled as a synchronous append, in event order.
- `OnBackgroundEventProcessingComplete` (lines 147-150): this only writes a debug message.
- `Process.GetProcessById` and `Kill` (lines 77-81): these are OS calls. They become an oracle outcome per event. The `victim != null` test is part of a successful outcome, since GetProcessById reports failure by throwing.
- CaseFold.FoldChar: folds only ASCII letters, because .NET's full OrdinalIgnoreCase Unicode upper-case table is not modelled. Non-ASCII letters compare case-sensitively here.
- Null process names and paths are not modelled; names and paths are always strings. In the source, a null name would throw at line 70, outside the `try`.
- Strings are sequences of Unicode scalar values, not the UTF-16 code units that .NET's `Length` and `Substring` count (lines 102 and 107). A character outside the Basic Multilingual Plane is one character here but two code units in .NET, so lengths differ. Lone surrogates, which .NET strings and NTFS file names can hold, cannot be represented. Counting scalar values instead of UTF-16 code units changes no answer of the prefix test on well-formed strings; the remaining differences come from the ASCII-only folding (see CaseFold.FoldChar).
- Process ids are 32-bit (`Int32`), but they are only compared with 0 and 4, so no wrap-around arises.
