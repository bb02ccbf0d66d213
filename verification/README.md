# jaim: the overlay file system and the configuration machinery, verified

jaim runs a program on macOS inside a sandbox. In its casual mode the program sees the
home directory through a copy-on-write overlay: a read-only *lower* tree merged with a
writable *upper* tree, where deletions are recorded as whiteouts and "hide everything
below" as an opaque marker. This project models that overlay and proves that, over any
run, it behaves as one ordinary tree. Around it stand the smaller loops on which the
configuration of the sandbox rests: the command-line scanner and its completer, the
configuration-file parser, includes, `--setenv`/`--unsetenv`, and the access-control
entries of strict mode.

## How the overlay proof is built

1. `RawFs`: one raw tree (`map<Path, Node>`) and the system calls the overlay makes on it,
   with the error answers of POSIX.1-2017.
2. `OverlayView`: `Resolve` is the component walk; `Serve` is what the kernel's lookup can
   get out of it; `Layered` is the merged tree with the layer of every entry, and `View`
   the same tree with the layers forgotten. `Inv` is the invariant of a mounted overlay: both layers are
   trees, markers are regular files, no upper name is both live and whited out by a
   sidecar, and an upper directory that lies below an opaque one, over a raw lower
   directory, is opaque itself.
3. `OverlayEdits`: the effect of each group of raw steps on the upper tree in closed form,
   and on the layered tree.
4. `DiskAnswers`: the temporary names of a copy, and what copying a file answers as a
   function of the upper tree and of the system's answers on the way.
5. `OverlayRuns`: `Step` (the overlay), `PlainStep` (one system call on one tree) and
   `LayeredStep` between them; the refinement for one step and for whole runs.
6. `OneDisk`: both layers on one raw disk. The strings the code builds, the nesting check,
   the raw paths an operation writes, and the proof that a raw call by absolute path under
   upper changes the disk there and nowhere else.
7. `OverlayMount`: class `Overlay` with the code's own sequences of raw calls, edited in
   place. `Sys` is the only place where the disk changes. Every operation is proved equal
   to its `Step`, its effect on the merged tree equal to the plain system call, and the
   paths it writes to be among those of `OneDisk.Writes`.
8. `WhiteoutForms` and `DirectoryRenames`: when the form of a whiteout can be seen, and
   when renaming a directory is a rename.

Two inputs stand for the outside world: `deny`, whether the system refuses `mknod` during
a call, and `Disk`, the answers of `open`, `read`, `write` and `rename` while a regular
file is copied up. Nothing else is assumed of either: what an operation answers is a
function of them, of the two trees and of its arguments.

## How the rest is pinned down

The smaller loops are proved equal to recursive functions, and each function is then tied
to a declaration that does not mention it: `OptionGrammar` gives the words a user may
write, what they stand for, and every way they can be wrong; `CompletionLaws` says in terms
of scanning the finished line what each answer of the completer means; `ConfigText` gives
the lines a configuration file may hold, comments, continuations, quoted characters and
blanks at the end included; `Expansion` reads any text as characters and references;
`ConfigIncludes` says by walks along includes when a file is parsed; `AccessLists` says
object by object which entries a sweep leaves, right by right.

## Where the code falls short of a plain tree

* Renaming a directory (`overlay.cc:886-889` promises an opaque mark that the code never
  sets). `DirectoryRenames.RenameDirExact` gives the exact condition;
  `UntouchedDirIsLost` and `RenameDirResurrects` are concrete mounts on which entries
  vanish or come back.
* Renaming a file to itself deletes it exactly when lower has the name
  (`OverlayRuns.SelfRenameExact`, and `SelfRenameDeletes` for one file). Whether a kernel
  hands a rename of a path to itself down to the file system at all is not known from the
  source.
* Device and sidecar whiteouts can be told apart: a device takes its name, and if all
  hundred temporary names of a file are whited out by devices the file cannot be copied up
  (`WhiteoutForms.FormsCanDiffer`). `RefusalsAgreeExact` and `RunsAgreeExact` say exactly
  when two runs agree; they always do if lower has no name like a temporary one
  (`WhiteoutsInterchange`).
* The nesting check lets through a mount of which exactly one layer is the root
  (`OneDisk.NestingCheckExact`, `OneDisk.RootSlipsThrough`).
* `--unsetenv` with a quoted pattern and no `*` removes the variable from what was set so
  far, but does not keep it out of the environment (`Environment.SplitIsGlobExact`,
  `Environment.UnsetenvExact`, and `QuotedUnsetenvFails` for the pattern `\A`).
* After a final `--`, the completer still offers options for a word beginning with `-`
  (`OptionScan.CompletionExact`, and `DashesThenOption` for `-- -x`).
* Stripping takes every entry of the sandbox user, so entries that were there before the
  grant are lost, and a removal that fails leaves the grant behind
  (`AccessLists.StripUndoesGrantExact`, `EarlierEntryIsLost`, `StuckEntryStays`).

## Model

| member | source | states |
|---|---|---|
| OverlayRuns.OverlayIsAPlainTree | overlay.cc:749-1075 | Every operation keeps the invariant; unless the copy-up is refused, it changes the merged view and answers exactly as the system call of its name does on one plain tree; a refused one leaves the view alone and answers the refusal. |
| OverlayRuns.RunIsAPlainRun | overlay.cc:749-1075 | Over any run from any well-formed mount, the merged view and the list of answers are those of the same run on one plain tree, refused calls left out. |
| OverlayRuns.RefusalMeans | overlay.cc:567-595 | A call is refused only if its path is served from lower and is of a kind that is never copied, or is a regular file for which the disk failed or no temporary name was left; and with which answer. |
| OverlayRuns.NothingRefused | overlay.cc:567-595 | Over any run on a lower tree of files, directories and links, whose copies find a disk that does not fail and a free temporary name, no call is refused. |
| OverlayRuns.StepRefines | overlay.cc:749-1075 | The same per operation, with the layers: which entries come to stand in upper is exactly what the operation touched. |
| OverlayRuns.NoResurrection | overlay.cc:758-804 | A path not served from lower is never served from lower again, through any run of operations. |
| WhiteoutForms.WhiteoutsInterchange | overlay.cc:384-443 | Two runs of the same operations on the same disk that differ only in where mknod is denied, mid-run included, are legal together, and have equal merged trees, equal layers and equal answers, if no temporary name is a name of lower. |
| WhiteoutForms.RunsAgreeExact | overlay.cc:384-443 | Whatever the names: two such runs give the same answers exactly if the same calls are refused, and then leave equal layers. |
| WhiteoutForms.RefusalsAgreeExact | overlay.cc:464-482 | And they refuse a call alike exactly if it is not a copy of a regular file for which one upper tree has a temporary name left and the other has none. |
| WhiteoutForms.WhiteoutsOnlyOverLower | overlay.cc:406-443 | No operation whites out, in either form, a name that lower does not have. |
| WhiteoutForms.FormsCanDiffer | overlay.cc:464-482 | Two concrete mounts with the same merged tree: with the hundred temporary names deleted as devices chmod answers EEXIST, with sidecars it succeeds. |
| OverlayRuns.DropAnswer | overlay.cc:775-862 | unlink and rmdir answer OK, ENOENT, EISDIR, ENOTDIR and ENOTEMPTY as the plain call does, and are never refused. |
| OverlayRuns.CopyUpLayers | overlay.cc:567-595 | What copy_up answers in each case and which entries it moves to upper; afterwards the entry itself stands there unchanged, under every parent. |
| OverlayRuns.CopyUpIsInvisible | overlay.cc:567-595 | copy_up, succeeding or not, leaves every name, type, content and mode of the merged view as it was; after success the path resolves to upper. |
| OverlayRuns.CopyUpTwice | overlay.cc:567-573 | A second copy-up changes nothing. |
| OverlayRuns.SelfRenameExact | overlay.cc:878-925 | Renaming a file to itself is the no-op it must be exactly when lower has no entry of that name; otherwise the file is deleted. |
| OverlayRuns.SelfRenameDeletes | overlay.cc:913-923 | A concrete mount: an untouched file of lower, renamed to itself, is gone. |
| DiskAnswers.CopyAnswerMeans | overlay.cc:454-543 | Copying succeeds whenever no call fails, however transfers are cut up or interrupted, and a temporary name is free; otherwise its answer is that of open or rename, of the first transfer that fails, or EEXIST with all names taken. |
| OverlayView.UpperWins | overlay.cc:221-334 | In every state of the invariant each live upper entry is what its path resolves to. |
| OverlayView.LowerIsBare | overlay.cc:249-334 | What is served from lower has nothing of its name in upper, no sidecar and no opaque directory above it. |
| OverlayView.ViewIsTree | overlay.cc:221-334 | The merged view is itself a tree without orphans and without reserved names. |
| OverlayEdits.WithDirsLayers | overlay.cc:344-378 | Creating parent directories keeps the invariant and moves exactly the parents to upper. |
| OverlayEdits.CopiedUpLayers | overlay.cc:567-595 | Copying an entry up keeps the invariant and moves exactly it and its parents. |
| OverlayEdits.PutLayers | overlay.cc:749-773 | Making an entry, an opaque mark included where lower has a directory, leaves it childless in upper and everything else as it was. |
| OverlayEdits.DropLayers | overlay.cc:792-804 | Removing an entry and whiting it out, in either form, takes exactly this entry from the merged tree. |
| OverlayEdits.SetLayers | overlay.cc:944-978 | Changing an upper node in place changes this node of the merged tree alone. |
| OverlayEdits.NearKeepsInv | overlay.cc:384-443 | An edit confined to a name, its sidecar and what lies below keeps the invariant if it does so there. |
| OverlayEdits.ServeFrame | overlay.cc:249-334 | Such an edit does not change how any other path resolves. |
| OverlayMount.Overlay.ResolvePath | overlay.cc:221-334 | The loop with its opaque flag computes the walk, for every path and any upper tree. |
| OverlayMount.Overlay.OpGetattr | overlay.cc:602-611 | Answers the node of the merged tree, ENOENT exactly where there is none. |
| OverlayMount.Overlay.OpReaddir | overlay.cc:656-747 | Lists each name of the merged directory exactly once and no other, with the plain tree's error answers. |
| OverlayMount.Overlay.ReadUpper | overlay.cc:676-717 | The first loop: upper names emitted once each, and exactly the names upper hides. |
| OverlayMount.Overlay.ReadLower | overlay.cc:719-745 | The second loop: lower names neither seen nor hidden, once each. |
| OverlayMount.ListedIsServed | overlay.cc:656-747 | The merge readdir makes, which looks at one opaque marker only, is the merge resolve makes. |
| OverlayMount.Overlay.EnsureUpperParents | overlay.cc:344-378 | Creates exactly the missing parents, with lower's modes or 0755; ENOTDIR exactly if a parent is no directory. |
| OverlayMount.Overlay.ClearWhiteout | overlay.cc:384-401 | Removes both forms of whiteout and nothing else. |
| OverlayMount.Overlay.PlaceWhiteout | overlay.cc:406-443 | Replaces the entry by a device, or by a sidecar for good once mknod has been denied, truncating one that stands there; ENOTEMPTY exactly for a directory with entries. |
| OverlayMount.Overlay.OpenTemp | overlay.cc:454-483 | The temporary name is a fresh sibling of the destination, among the first hundred; EEXIST exactly if all are taken. |
| OverlayMount.Overlay.Transfer | overlay.cc:487-519 | Under any short reads, short writes, interruptions and errors: the temporary file holds all of the data, or is gone; and the answer is that of the first failure met. |
| OverlayMount.Overlay.CopyRegular | overlay.cc:454-543 | Success leaves dst with the whole of src and its mode, failure leaves the upper tree as it was; no temporary file survives; and which of the two happens is CopyAnswer. |
| OverlayMount.Overlay.CopyUp | overlay.cc:567-595 | The raw steps of copy_up are the closed form with the answer of CopyAnswer, and the merged view stays as it was. |
| OverlayMount.Overlay.OpMkdir | overlay.cc:749-773 | The raw steps are the Step, and the merged tree changes as by mkdir. |
| OverlayMount.Overlay.OpCreate | overlay.cc:1037-1051 | The same for creating a regular file. |
| OverlayMount.Overlay.OpSymlink | overlay.cc:864-876 | The same for symlink. |
| OverlayMount.Overlay.OpUnlink | overlay.cc:775-805 | The same for unlink, with its answers. |
| OverlayMount.Overlay.OpRmdir | overlay.cc:807-862 | The same for rmdir, including the purge of markers left in an empty merged directory. |
| OverlayMount.Overlay.OpRename | overlay.cc:878-925 | The raw steps are the Step for what is no directory, onto an absent name or another file; on a disk that copies well the plain rename, answer and tree; and what becomes of a file renamed to itself. |
| OverlayMount.Overlay.OpRenameDir | overlay.cc:878-925 | For a directory and a free name: the raw steps are the tree DirectoryRenames reasons about. |
| OverlayMount.Overlay.OpChmod | overlay.cc:944-954 | Copy-up, then chmod: exactly the plain answer and change on a disk that copies well, for all but devices, sockets and fifos of lower; else the refusal and no change. |
| OverlayMount.Overlay.OpTruncate | overlay.cc:968-978 | The same for truncate. |
| OverlayMount.Overlay.OpOpenWrite | overlay.cc:1011-1075 | The same for opening for writing, with or without O_TRUNC, and writing at an offset. |
| RawFs.BytesAt | overlay.cc:968-1075 | Byte by byte, what the raw truncate and write behind these operations leave in a file. |
| RawFs.ModeOnly | overlay.cc:944-954 | The raw chmod changes permission bits and nothing else. |
| OverlayMount.Overlay.Sys | overlay.cc:149-161 | One raw call of an operation is the same call on the whole disk, with the absolute path of upper and its own; upper's part of the disk changes with it and nothing else. |
| OverlayMount.Overlay.LowerStays | overlay.cc:1316-1327 | Whatever raw calls have been made, lower and all else outside upper is on the disk as it was at mount time. |
| OverlayMount.Overlay.StepOnDisk | overlay.cc:1316-1327 | So each operation is the step OneDisk.LowerIsUntouched speaks of. |
| DirectoryRenames.RenameDirExact | overlay.cc:878-925 | For every directory and free name: the call is a rename of the merged tree exactly when lower contributes the same below the new name as below the old one. |
| DirectoryRenames.ServedUnderTarget | overlay.cc:878-925 | Under the new name exactly this is served: what upper had under the old one, and what lower, asked below the new one, shows between it. |
| DirectoryRenames.ShownIsServed | overlay.cc:249-334 | Asked below the directory's own name, that is what is served from lower there. |
| DirectoryRenames.RenameDirToFreshName | overlay.cc:886-889 | A name under which lower has no directory is good exactly when nothing below the directory is still served from lower. |
| DirectoryRenames.RenameDirLoses | overlay.cc:886-889 | An entry still served from lower is lost where lower has nothing at its new place. |
| DirectoryRenames.RenameDirLeaks | overlay.cc:886-889 | What lower has at a new place where the directory had nothing appears. |
| DirectoryRenames.UntouchedDirIsLost | overlay.cc:886-889 | A concrete mount: a directory nobody touched arrives empty. |
| DirectoryRenames.RenameDirResurrects | overlay.cc:886-889 | A concrete mount: entries deleted with a directory of the new name come back. |
| OneDisk.JoinIsConcat | overlay.cc:149-161 | join glues component sequences for every base but the root. |
| OneDisk.FlatOrder | overlay.cc:1316-1327 | "Equal or below", tested on canonical strings, is the prefix order of their components. |
| OneDisk.NestingCheckExact | overlay.cc:1316-1327 | The check recognises nesting exactly, for all pairs of directories but those of which one alone is the root. |
| OneDisk.PathStrings | overlay.cc:149-161 | The strings built for a path and for its opaque mark are the canonical strings of these paths under upper. |
| OneDisk.LeafStrings | overlay.cc:384-443 | So are those for a leaf and its sidecar, built from the parent's string. |
| OneDisk.TempString | overlay.cc:468-470 | And those of the temporary files. |
| OneDisk.MadeNamesAreComponents | overlay.cc:149-161 | Marks, sidecars and temporary names of a path of proper components are paths of proper components. |
| OneDisk.WrittenIsComponents | overlay.cc:149-161 | So every path an operation on such a path writes is one, purged names being names on disk. |
| OneDisk.RawCallIsLocal | overlay.cc:149-161 | Each raw call by absolute path under upper answers and does on the disk what it answers and does on the upper tree alone. |
| OneDisk.WritesStayOut | overlay.cc:1316-1327 | For layers other than the root the check refuses exactly the mounts on which some path that an operation writes, temporary names, sidecars and marks included, lies at or under lower. |
| OneDisk.RootSlipsThrough | overlay.cc:1319-1323 | With lower the root, the check passes although every write lands under it. |
| OneDisk.LowerIsUntouched | overlay.cc:1316-1327 | On one raw disk, after a passed check, every run leaves lower and everything else outside upper as it was, and upper as two separate trees would have it. |
| OptionScan.ScanArg | options.cc:95-146 | The loop over one word gives the word's items. |
| OptionScan.ScanArgs | options.h:427-455 | The loop that consumes extra words from inside gives the recursive reading of the vector. |
| OptionScan.ShortIsGoodButLast | options.cc:120-146 | In a bundle only the last item can be unfinished or wrong. |
| OptionScan.ScanFinds | options.h:427-455 | A scan without error finds only registered options, each with an argument exactly where it may have one. |
| OptionGrammar.ScanExact | options.h:427-455 | A scan succeeds, and reads certain options and positional arguments, exactly if options are written, in any of their four forms, that stand for these and no others. |
| OptionGrammar.FailureExact | options.cc:95-146 | It fails exactly if some word is an unknown option, gives a value to one that takes none, or ends the line where an argument is needed, behind options as they may be written; and reports these, the flags before the fault, and which it is. |
| OptionScan.UnbundlingPreservesMeaning | options.cc:95-146 | Each option rewritten as words of its own, then "--": the same options, the same arguments, the same positional arguments. |
| OptionScan.UnbundlingWithoutDashes | options.h:427-455 | Without the "--" too, when the first positional argument does not look like an option. |
| OptionScan.CompleteArgs | options.cc:148-200 | The completer's loops give its answer as a function of the scan of the words before the last. |
| OptionScan.OneMoreWord | options.h:427-455 | What one more word can change about a scan, according to how the scan before it ended. |
| OptionScan.CompletionAgrees | options.cc:148-200 | A position below argc that the completer answers is where scan_args finds the first positional argument. |
| OptionScan.CompletionExact | options.cc:148-200 | The converse holds unless the first positional argument is the unfinished word itself and begins with '-'. |
| OptionScan.DashesThenOption | options.cc:148-200 | A concrete case of the difference: a final "--" and "-x". |
| CompletionLaws.ArgumentExact | options.cc:148-200 | The completer asks for an argument, with this option, text and prefix, exactly if scanning takes whatever the user goes on to write there as that option's argument; only a letter that needs one and ends its word is left to be a word. |
| CompletionLaws.CanGoOnExact | options.cc:148-226 | It has nothing to offer exactly if nothing the word can become lets the line be scanned. |
| CompletionLaws.ListedMeans | options.cc:148-226 | A list it offers holds exactly the registered names the word begins, each with its ending; or the word itself, for a bundle with which the line scans, if need be with an argument after it. |
| CompletionLaws.NoWordYet | options.cc:175-176 | Without a word to complete it answers argc. |
| CompletionLaws.AfterDashesAsFirst | options.cc:148-200 | After the final "--" it answers as if the word were the first. |
| ConfigText.ParseFile | options.cc:24-93 | The parser's loops give the option words a text stands for. |
| ConfigText.ScanValue | options.cc:50-84 | The loop with escape and last_escaped reads a value, its end, and whether its last character was escaped. |
| ConfigText.BitsRead | options.cc:50-84 | Any value as it may be written, with quoted characters, lines joined by a backslash and carriage returns, reads as its characters up to the end of its line. |
| ConfigText.TrimmedMeans | options.cc:82-84 | Trimming takes the blanks at the end, all of them and nothing else. |
| ConfigText.ParsedMeans | options.cc:24-93 | Any text of empty lines, comments, bare options and options with values parses to exactly the words its options stand for, in order; blanks at the end of a value go unless a backslash comes last. |
| ConfigText.ParsedUnfinished | options.cc:24-93 | The same when the last line has no newline. |
| ConfigText.PrintedReads | options.cc:24-93 | Any list of settings, printed one per line, parses to exactly their words in order. |
| ConfigText.InvokedMeans | options.h:427-455 | A configuration invokes the options of its words up to the first word that is not accepted, and is accepted exactly if every word is. |
| ConfigText.ConfigRoundTrip | options.cc:24-119 | Parsing what was printed, then scanning it, invokes exactly the printed options with exactly their values, whatever characters these hold. |
| ConfigText.QuotedRoundTrip | jaim.h:61-79 | The same for any list of settings with every value quoted against expansion as well: the k-th action gets the k-th value itself. |
| Expansion.VarExpand | jaim.h:61-79 | The index loop computes the expansion piece by piece. |
| Expansion.ExpandMeans | jaim.h:61-79 | A text of characters, quoted characters and references expands to the characters and the values of the references, side by side. |
| Expansion.EveryTextIsReadable | jaim.h:61-79 | Every text is one of these: a "$" that begins no closed reference and a final backslash are characters. |
| Expansion.TemplateExpands | jaim.h:61-79 | Quoted literals and references in any order expand to the literals and the values. |
| Expansion.UnclosedStays | jaim.h:70-72 | A "${" that is not closed stays as it stands. |
| Expansion.QuoteRoundTrip | jaim.h:61-79 | A quoted value expands to itself, whatever the variables hold. |
| GlobPattern.GlobIsItsLanguage | fs.cc:34-48 | glob, which terminates, accepts a target exactly if it can be cut into parts, one for each piece of the pattern. |
| GlobPattern.PlainPattern | fs.cc:34-48 | Without '*' and backslash matching is equality; with a backslash the pattern never matches itself. |
| Environment.EnvOptions.Unsetenv | jaim.cc:1653-1661 | Erases exactly the matching variables and records the pattern. |
| Environment.EnvOptions.Setenv | jaim.cc:1662-1699 | An assignment gives its variable the expanded value and leaves filter and other variables alone; a bare name lifts the pattern of that name; the one error changes nothing. |
| Environment.EnvOptions.MakeEnv | jaim.cc:775-804 | The list holds the entries of the declared environment, one for each variable. |
| Environment.MadeIsKeyed | jaim.cc:775-804 | Each entry of the environment is the one of its own variable. |
| Environment.MadeAt | jaim.cc:775-804 | A variable is in the environment with its set value, or else exactly if inherited and not filtered, with its first inherited entry. |
| Environment.LastSetenvWins | jaim.cc:1662-1686 | If the last directive about v is v=val, the program sees v with that value, whatever came before. |
| Environment.LastUnsetenvWins | jaim.cc:1653-1661 | If the last directive about v is an unsetenv that matches it, with '*' or without backslash, the program does not see v. |
| Environment.SplitIsGlobExact | jaim.cc:777-797 | make_env's split into names and patterns asks what glob asks exactly for patterns with '*' or without backslash. |
| Environment.UnsetenvExact | jaim.cc:1653-1661 | Alone, an unsetenv that matches an inherited variable keeps it out exactly under that condition. |
| Environment.QuotedUnsetenvFails | jaim.cc:777-797 | A concrete case: the pattern `\A` matches A, and A stays. |
| Environment.BareSetenvExact | jaim.cc:1687-1688 | Naming a filtered variable lifts that pattern: the inherited value returns exactly if no other wildcard matches. |
| Environment.BareSetenvLifts | jaim.cc:1693-1697 | Naming an inherited variable that is no pattern of its own brings its inherited value back whatever wildcards match it; a value set before stays if none does. |
| Environment.ReferenceMeans | jaim.cc:1662-1668 | A reference in a value of a configuration file sees what was set before it, else what is inherited, else nothing; on the command line a value is taken as it stands. |
| ConfigIncludes.Config.ParseConfigFile | jaim.cc:117-130 | Terminates on any finite set of files; success or error, the active set and the flag come back as they were. |
| ConfigIncludes.FirstAnswer | jaim.cc:117-130 | A file answers what the first of its lines that fails does. |
| ConfigIncludes.ParsedExact | jaim.cc:1585-1592 | A file is parsed exactly if following includes from it never leads to a file twice, to an option that is rejected or to a --conf of a missing file; a missing --conf? file does no harm; another answer says which there is. |
| ConfigIncludes.LoopIffCycle | jaim.cc:1585-1592 | With includes of existing files only, "configuration loop" is reported exactly when following includes can lead back to a file. |
| ConfigIncludes.OnlyLoops | jaim.cc:117-130 | And nothing else can go wrong then. |
| AccessLists.AclDisk.RemoveUserEntries | acl.cc:178-213 | The delete-and-restart loop is an order-preserving filter; nothing is written back if there was nothing to delete or any call failed. |
| AccessLists.AclDisk.AddAllowUser | acl.cc:117-171 | Unless a call fails, the list is the old one and, last, an entry that allows the user exactly the rights of the mask; no other list changes. |
| AccessLists.AclDisk.ApplyRecursive | acl.cc:220-273 | Adds to every object of the walk in its order, whichever additions fail. |
| AccessLists.AclDisk.RemoveRecursive | acl.cc:220-291 | Strips every object of the same walk, whichever removals fail. |
| AccessLists.WalkIsBelow | acl.cc:220-257 | The walk visits exactly what stands at some place below through directory children, hence nothing that only links lead to, and as a directory exactly what is one. |
| AccessLists.WalkOnce | acl.cc:220-257 | And an object with one name once. |
| AccessLists.LinksLeadElsewhere | acl.cc:215-229 | A concrete tree where going through links would visit more. |
| AccessLists.AclDisk.GrantAll | jaim.cc:1125-1144 | All grants, one after the other. |
| AccessLists.AclDisk.StripAll | jaim.cc:1254-1275 | All of them stripped. |
| AccessLists.AddedAllAt | jaim.cc:1125-1144 | Granting keeps other users' entries, extends exactly the lists of objects that some grant is for and whose calls succeed, and changes no other. |
| AccessLists.GrantedEntries | jaim.cc:1125-1144 | After granting, a list is what it was, followed grant by grant by entries that give the user exactly the rights promised: reading; writing unless read-only; searching for a directory's contents; deleting children on a directory that may be written. One at least for each grant that is for the object and does not fail, and no more if the object has one name there. |
| AccessLists.ReadOnlyStaysReadOnly | jaim.cc:1125-1144 | Read-only grants give no right to write. |
| AccessLists.StrippedAllAt | jaim.cc:1254-1275 | Stripping takes exactly the user's entries from exactly the objects that some grant is for and whose calls succeed. |
| AccessLists.StripUndoesGrantExact | jaim.cc:1254-1275 | Granting any overlapping paths and stripping them, with any failures: every list is restored, in order, exactly if each one that was stripped had no entry of the user before and each one that was not stripped had not been extended; objects no grant is for never change. |
| AccessLists.StripUndoesGrant | jaim.cc:1254-1275 | Without failures: exactly if no object a grant is for had an entry of the user before. |
| AccessLists.EarlierEntryIsLost | jaim.cc:1254-1275 | A concrete list that is not restored: the user had an entry before. |
| AccessLists.StuckEntryStays | jaim.cc:1254-1275 | Another: the removal fails. |

## Left out

- RenameDirExact: speaks of the view right after one call; a directory rename can leave a mount outside the invariant, so the runs hold no directory renames. Renames of a file to itself are treated apart (SelfRenameExact).
- NestingCheckExact: strings are canonical, without empty components; that realpath yields them is taken for granted.
- LastUnsetenvWins: requires a '*' in the pattern or no backslash, because the code does not keep its promise for other patterns (UnsetenvExact).
- ConfigRoundTrip: names are non-empty, do not begin with '#' and hold no blank, newline or '='; a value printed after a blank is not empty.
- ParsedUnfinished: a text that ends right after a backslash, or in the middle of a joined line, is not among the texts described.
- CopyRegular: an endless sequence of interruptions or of writes that write nothing, on which the code would loop for ever, is a finite script here; lower's file does not change while it is copied; closing and setting times and owner are left away.
- OpOpenWrite: one open and one write through its descriptor are one operation; descriptors kept open across a copy-up or an unlink, and reading through them, are not modelled.
- WhiteoutsInterchange: asks that no temporary name is a name of lower or whited out from the start, because without that the two forms do differ (FormsCanDiffer); RunsAgreeExact and RefusalsAgreeExact hold without it.
- Resolving below something that is not a directory, where the resolver walks on past an upper file: the view is what a component-wise lookup reaches.
- Symbolic links are leaves; a raw path through a lower symbolic link to a directory, which the code's lstat would follow, is not modelled.
- Names that begin with ".wh.", as user names or in lower.
- Raw disk failures other than during the copy of a regular file and the denial of mknod; full disks; permissions.
- Ownership, times, umask, extended attributes, hard links (op_link), statfs, flush and fsync; they do not decide which layer is served.
- The order in which directories are read and in which the environment is listed.
- Opening a lower file for reading, access and readlink: each is one resolve and one system call.
- Messages and line numbers of parse errors, the warning of --setenv inside a configuration file, and how an include names a file (".conf" added, directory it is looked up in): the model has file identities.
- Access lists: an absent list and an empty one are the same; directories that cannot be opened, and entries that new children inherit, are not modelled; granted paths are canonical, so a granted root is no symbolic link; a link's target is a tree of its own, so links that lead back up are not written down.
- The sandbox profile text, process, mount and signal handling, credentials, user setup and the three passes over the command line.
