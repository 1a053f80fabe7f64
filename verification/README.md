# CodeChatter, modelled and proved

CodeChatter rooms live in several places at once: a shared document, a sandbox with an agent, helper
processes beside it, and a database. This project models the algorithms that keep those in step, and the
parsers, printers and allocators beside them, and proves what they promise. Where a promise does not hold in
all cases, the case is given, and the exact condition under which it does hold is proved.

| part | files |
|---|---|
| Two-way sync of a room's files with its sandbox | Paths, SandboxFs, PushPlan, PushExact, Tracking, Echo, Attach, SyncSteps, Reports, SyncRuns, DocSync |
| The room's document: nodes, the names they are shown by, and the tree | PathNames, SiblingNames, Newcomers, RoomNodes, InsertNode, InsertPaths, NewNodes, NewFiles, Removals, RoomDoc |
| The archive of a room's files (POSIX.1, `pax` utility, "ustar Interchange Format") | TarFields, TarPaths, Ustar, TarArchive, TarReader |
| Language server messages (Language Server Protocol 3.17, "Base Protocol") | Bytes, LspFrames |
| `git status` ("Porcelain Format Version 2" in git-status's documentation) | GitStatus |
| The agent's requests and answers | AgentChannel |
| Notebook cells, one at a time | Notebook |
| A network for each room | Subnets |
| The rate limiter | RateLimiter |
| Accounts and rooms | Membership, RoomRules |
| A room's stored tree | NodeNames, TreeRules, RoomTree |
| The codebase index | Passages, CodebaseIndex |
| Splitting, joining, numbers in decimal, white space | Strings, WhiteSpace |

Objects that change in place are classes whose methods are proved against functions of the old state; what the
objects promise over whole runs is proved about those functions. `dafny verify dfyconfig.toml` checks everything.

What was found on the way, each with a lemma of its own:

- A push can delete a file the room has. When a program replaces a folder by a file, the folder stays in the
  mirror's `dirs`, and the next full push deletes the file with it (`PushExact.StaleFolderLosesFile`; exactly when:
  `PushExact.PushKeepsFiles`, and over whole runs `SyncRuns.EveryRunInSync`).
- A text file that becomes binary while the object store has no answer keeps its old text in the sandbox
  (`PushExact.MissingBytesLeaveOldText`; exactly when: `PushExact.PushIsExact`).
- What a program writes can be deleted again by the next push, because the room shows the new file elsewhere or
  not at all: when another file has the name in other letters (`Echo.OtherCaseIsEchoed`), when trimming changes the
  name (`Echo.UntrimmedIsEchoed`), or when the path has more than 65 names (`Echo.TooDeepIsEchoed`). Exactly when:
  `NewNodes.MadeIsShown`, `Echo.EchoFree`, whatever the clocks say.
- Made by a clock that is behind, the new file takes the name, and the room's own file is the one deleted
  (`Echo.OlderClockRenames`). Exactly when a new file moves what the room has: `NewFiles.OthersStay`,
  `NewFiles.TreeKept`. Only the first name that has to be made can clash: the folders made after it are empty.
- A name that is all white space becomes no name, and what is in that folder is shown as if it were at the root
  (`NewFiles.BlankNameMakes`, `RoomNodes.BlankNameCollides`; exactly when: `RoomDoc.WithFileOk`). A file by such
  a name at the root is shown at the empty path (`NewFiles.BlankIsShownAtNoPath`); the agent refuses that path
  (sandbox/agent/src/workspace.ts:36-38), so the next push fails.
- The archive loses the leading slash of a path of 101 bytes (`TarPaths.SplitJoins`), and a size of 64 GiB or more
  does not read back (`TarReader.SizeReadsBack`).
- Naming a second node like a sibling whose name is 120 characters long and has no extension never ends
  (`NodeNames.LongNameTwice`; exactly when: `NodeNames.EndsWithin`).
- Normalising a stored tree again can change it, when cutting a name left a space at its end
  (`TreeRules.CutLeavesSpace`; exactly when: `TreeRules.StoredAgain`).
- A file stored without content makes the first write-back a change (`RoomTree.SeededWritesBack`).
- Restarting a notebook's kernel while a cell runs forgets that cell, whose `done` is still to come, so another can
  be sent beside it (`Notebook.RestartForgets`).

Where code and comment differ the code is followed: `approve_room_join_request` takes any request with that id,
also one already rejected.

## Model

| member | source | states |
|---|---|---|
| `SandboxFs.DeleteAll` | sandbox/agent/src/workspace.ts:69-73 | A run of deletes listed bottom-up is legal at each step and removes just the listed entries. |
| `SandboxFs.MkdirAll` | sandbox/agent/src/workspace.ts:65-67 | A run of mkdirs listed top-down is legal at each step and adds just those folders. |
| `SandboxFs.WriteAll` | sandbox/agent/src/workspace.ts:44-63 | A run of writes into folders that exist, none over a folder, is legal at each step and sets just those files. |
| `SandboxFs.WriteFiles` | sandbox/agent/src/workspace.ts:44-63 | Writes change just those files of any sandbox, when no file lies above or beneath one of them. |
| `SandboxFs.DeleteFolders` | sandbox/agent/src/workspace.ts:69-73 | In a sandbox with whatever folders, deleting folders drops the files at those very paths and no other. |
| `Paths.SortDown` | apps/runner/src/doc-sync.ts:325-325 | `[...dirs].sort().reverse()`: every element once, and whatever lies beneath a folder before it. |
| `Paths.BeforeMeans` | apps/runner/src/doc-sync.ts:325-330 | The order of a default sort is that of the first character that differs, a prefix first. |
| `Paths.DescendantComesFirst` | apps/runner/src/doc-sync.ts:325-329 | In a list sorted down, what lies beneath a folder comes before the folder. |
| `Paths.AncestorComesFirst` | apps/runner/src/doc-sync.ts:330-334 | In a sorted list the folders above a path come before it. |
| `PushExact.PushIsExact` | apps/runner/src/doc-sync.ts:310-345 | Every operation of a full push is legal when its turn comes, and the sandbox ends as exactly the room, files and folders, if and only if the store has every binary file to be sent. |
| `PushExact.PushLeaves` | apps/runner/src/doc-sync.ts:310-345 | What files any push leaves in a sandbox that holds the mirror's files and any folders, whatever the store lacks. |
| `PushExact.PushKeepsFiles` | apps/runner/src/doc-sync.ts:310-345 | In a sandbox with the mirror's files and any folders, a push gives the room's files if and only if the store answers and no folder still in the mirror is the place of an unchanged file. |
| `PushExact.StaleFolderLosesFile` | apps/runner/src/doc-sync.ts:325-329 | A concrete push that deletes a file the room has, because its path was left among the folders of the mirror. |
| `PushExact.MissingBytesLeaveOldText` | apps/runner/src/doc-sync.ts:340-344 | A concrete push after which the sandbox still has the old text of a file that became binary. |
| `SiblingNames.ResolveSiblingNames` | packages/workspace-model/src/model.ts:146-159 | Sorting by age and numbering gives each node the first of its names that no older sibling is shown by. |
| `SiblingNames.SiblingsApart` | packages/workspace-model/src/model.ts:140-159 | Whatever the nodes are, siblings are shown by names that differ in every case of letters. |
| `SiblingNames.EnoughTries` | packages/workspace-model/src/model.ts:146-159 | The numbering loop ends: one try more than the names taken is enough. |
| `SiblingNames.NumberBeforeExtension` | packages/workspace-model/src/model.ts:146-158 | The number stands before the extension, which begins at the last dot. |
| `SiblingNames.NumberAtEnd` | packages/workspace-model/src/model.ts:146-158 | It stands at the end of a folder's name, and of one with no dot but at its start. |
| `Newcomers.NamesByAge` | packages/workspace-model/src/model.ts:140-159 | The name a node is shown by, and those of its older siblings, depend on these alone. |
| `Newcomers.OwnNameKept` | packages/workspace-model/src/model.ts:140-159 | A node is shown by its own name if and only if no older sibling is shown by it, in any case of letters. |
| `Newcomers.WhenUnmoved` | packages/workspace-model/src/model.ts:140-159 | A node that comes, however old, leaves all its siblings their names if and only if none is shown by the name it gets, in any case. |
| `Newcomers.NobodyMovesThere` | packages/workspace-model/src/model.ts:146-159 | Nobody comes to be shown by the very name a newcomer was asked to have, trimmed or not, who was not so before. |
| `RoomNodes.NodeIsLive` | packages/workspace-model/src/model.ts:129-138 | The loop up the parents finds a node live exactly if neither it nor anything above it is in the trash or above itself. |
| `RoomNodes.ListTree` | packages/workspace-model/src/model.ts:162-186 | For nodes whose names are there and without slashes the recursion over folders lists each shown node at its path, taken in any order. |
| `RoomNodes.TreeIsTree` | packages/workspace-model/src/model.ts:162-186 | For any nodes whose names are there and without slashes: each path is one node's, lies in folders that are shown, and is no other's in another case. |
| `RoomNodes.PathHasParts` | packages/workspace-model/src/model.ts:174-182 | A node is shown exactly if its path has at most 65 names. |
| `RoomNodes.BlobInTree` | packages/workspace-model/src/model.ts:245-273 | New bytes or text for a file change that file in the tree, and nothing else of it. |
| `RoomNodes.BlankNameCollides` | packages/workspace-model/src/model.ts:174-182 | In a room where a folder has a blank name, two nodes are shown at one path. |
| `RoomNodes.SlashNameCollides` | packages/workspace-model/src/model.ts:174-182 | So it is where a name holds a slash. |
| `InsertNode.InsertNames` | packages/workspace-model/src/model.ts:211-225 | A new node of any age leaves the names in other folders; in its own they are those of its siblings with it. |
| `InsertNode.InsertKeepsNames` | packages/workspace-model/src/model.ts:211-225 | It leaves every other node its name if and only if nobody beside it is shown by the name it gets. |
| `InsertNode.NewNameComesOut` | packages/workspace-model/src/model.ts:146-159 | A new node of any age gets the name asked for if and only if trimming leaves it and nobody older in the folder is shown by it in any case. |
| `InsertPaths.NobodyMovesIn` | packages/workspace-model/src/model.ts:162-186 | At the path asked for and beneath it nobody is shown, but the new node, who was not shown there before. |
| `Removals.WhenNoneMoves` | packages/workspace-model/src/model.ts:140-159 | When one sibling goes, all others keep their names if and only if none of them had passed over its name, in any case of letters, before coming to its own. |
| `Removals.StillShown` | packages/workspace-model/src/model.ts:162-186 | A file put in the trash is shown nowhere, and everyone else is shown exactly if they were. |
| `Removals.TreeWithout` | packages/workspace-model/src/model.ts:162-186 | The tree is just what it was without the file if and only if nobody beside it had passed over its name. |
| `NewFiles.MakeAtPath` | packages/workspace-model/src/model.ts:312-327 | The loop over a path's names reuses the folders that are there, makes the others, and then the file. |
| `NewNodes.MadeIsShown` | packages/workspace-model/src/model.ts:303-327 | Whatever the clocks, a file asked for where nothing is shown is shown there if and only if the path fits: each name on its way is a folder that is there, or one that trimming leaves and that, where its folder is there, nobody older has in any case; and there are at most 65. Nobody else is shown there. |
| `NewFiles.FitsWhenYoungest` | packages/workspace-model/src/model.ts:303-327 | By a clock that is not behind, a path fits if and only if it and the folders above are free in every case and from files, the names made are trimmed, and there are at most 65. |
| `NewFiles.OthersStay` | packages/workspace-model/src/model.ts:303-327 | Whatever the clocks, everyone else is shown where they were if and only if nobody was shown, in any case, by the name that the first node made gets. |
| `NewFiles.TreeKept` | packages/workspace-model/src/model.ts:303-327 | The same of the tree, when no name made is blank. |
| `NewFiles.DisplacedIsYounger` | packages/workspace-model/src/model.ts:146-159 | Who is shown by the name a new node gets is younger than it. |
| `NewFiles.MadeNamed` | packages/workspace-model/src/model.ts:211-225 | A file made at a path leaves all nodes with names if and only if no name that had to be made is blank. |
| `NewFiles.BlankIsShownAtNoPath` | packages/workspace-model/src/model.ts:174-182 | A file asked for at the root by a blank name is shown at the empty path, which the agent refuses. |
| `NewFiles.BlankNameMakes` | packages/workspace-model/src/model.ts:312-327 | A file asked for in a folder whose name is one space makes such a room. |
| `RoomDoc.RoomIsWellFormed` | packages/workspace-model/src/model.ts:162-194 | What a room shows is a tree of files and folders with no path both, however its nodes were moved, renamed or trashed. |
| `RoomDoc.ShownData` | packages/workspace-model/src/model.ts:162-194 | A live node is shown at its path as a folder, as the bytes of its hash, or as its text, which is empty if it has none. |
| `RoomDoc.SetDataShows` | packages/workspace-model/src/model.ts:245-273 | New data for a file is shown at its path, and all else as before. |
| `RoomDoc.WithFileOk` | packages/workspace-model/src/model.ts:303-331 | A file made at a path breaks no rule of the room if and only if no name that had to be made for it is blank. |
| `RoomDoc.ShownThere` | packages/workspace-model/src/model.ts:303-331 | After a report the room shows that file at that path if and only if it had a file there, or nothing is there and the path fits. |
| `Tracking.FastPathIsPush` | apps/runner/src/doc-sync.ts:296-308 | The text-only shortcut emits what the full comparison would, if and only if no edited id belongs to a binary file or a folder and the mirror has no file where the room has a folder. |
| `Tracking.TextsCaughtUp` | apps/runner/src/doc-sync.ts:298-305 | After the shortcut the mirror has every file as the room shows it, and keeps any it had where the room has a folder. |
| `Tracking.ShortcutKeepsFiles` | apps/runner/src/doc-sync.ts:296-308 | The shortcut overwrites files that are there: if the mirror's files were the sandbox's, they are again. |
| `Tracking.LoopsArePush` | apps/runner/src/doc-sync.ts:315-344 | The six loops together are one push: files gone, folders gone from the bottom up, folders made from the top down, changed files. |
| `Echo.NoEcho` | apps/runner/src/doc-sync.ts:189-233 | After a report from the sandbox the next push has no operation at its path, if and only if the path was not a folder of the mirror and the room has the file there. |
| `Echo.EchoFree` | apps/runner/src/doc-sync.ts:189-233 | The same, told by the state before the report: the path is no folder of the mirror, and the room has a file there or nothing there and the path fits. |
| `Echo.NotTakenIsDeleted` | apps/runner/src/doc-sync.ts:189-233 | A reported path the room does not take: every next push deletes the file. |
| `Echo.UntrimmedIsEchoed` | packages/workspace-model/src/model.ts:211-225 | A file whose name ends in a space, written in an empty room, is deleted by every next push. |
| `Echo.OtherCaseIsEchoed` | packages/workspace-model/src/model.ts:146-159 | So is `README` in a room that has an older `Readme`. |
| `Echo.TooDeepIsEchoed` | packages/workspace-model/src/model.ts:174-175 | So is any path of more than 65 names. |
| `Echo.OlderClockRenames` | packages/workspace-model/src/model.ts:146-159 | When `Readme` is not older, the clock being behind, `README` takes the name, and every next push deletes the room's `Readme`. |
| `Echo.OthersAreKept` | packages/workspace-model/src/model.ts:303-327 | A new file that takes nobody's name brings no removal of anything the room has, but for files the program made folders of. |
| `Tracking.EventStaysTracked` | apps/runner/src/doc-sync.ts:82-93 | Whatever a report brings, at a file, a folder or a new path without blank names to make, paths-by-id and dirty texts stay right. |
| `Tracking.WroteInSync` | apps/runner/src/doc-sync.ts:189-198 | Noting a file a program wrote, at any path, keeps the mirror's files equal to the sandbox's. |
| `Tracking.RemovedInSync` | apps/runner/src/doc-sync.ts:201-205 | Noting a file a program removed does too. |
| `Tracking.FolderInSync` | apps/runner/src/doc-sync.ts:189-209 | Folders that programs make or remove, unreported, leave the mirror right about the files. |
| `SyncSteps.StepKeepsRight` | apps/runner/src/doc-sync.ts:189-346 | Every edit, push and report keeps the memory of the last push right. |
| `SyncSteps.PushInSync` | apps/runner/src/doc-sync.ts:291-346 | After a push the mirror's files are the sandbox's if and only if it was a shortcut, or the store answered and no unchanged file stood where the mirror listed a folder. |
| `SyncSteps.StepInSync` | apps/runner/src/doc-sync.ts:189-346 | A step keeps them equal if and only if it is harmless: no unclean push, and no file left alone that the mirror has not. |
| `Reports.RemovedLeavesRoom` | apps/runner/src/doc-sync.ts:201-205 | A live file that a program removed is at no path of the room's tree; all else is there still, where it was if outside its folder; texts stay; and the tree is just what it was without it if and only if nobody beside it had passed over its name. |
| `Reports.RemovedElsewhere` | apps/runner/src/doc-sync.ts:201-205 | A removal of what is no live file of the room's changes nothing there. |
| `Reports.NotWrittenBack` | apps/runner/src/doc-sync.ts:291-346 | Unless a sibling takes its path, the push after it has no operation there, if and only if the path was no folder of the mirror. |
| `Reports.FoldersAboveStay` | apps/runner/src/doc-sync.ts:197-197 | After a report of a file a push by full comparison does nothing at a folder above it if and only if the room shows a folder there and the mirror had no file there. |
| `Reports.WroteReaches` | apps/runner/src/doc-sync.ts:211-233 | A report of a binary file puts its bytes into the store, and the store loses nothing. |
| `Reports.MarksWhatChanged` | apps/runner/src/doc-sync.ts:82-93 | A report marks the tree exactly if it changes a node or which of them have a text, and marks just the texts that it changes. |
| `DocSync.DocSync.TakeSnapshot` | apps/runner/src/doc-sync.ts:277-289 | The loop over the tree collects what the room shows, and the path of every id. |
| `DocSync.DocSync.EditText` | apps/runner/src/doc-sync.ts:87-93 | An edit of a text makes the step of that name: it marks the text, and nothing else changes. |
| `DocSync.DocSync.PushTexts` | apps/runner/src/doc-sync.ts:296-308 | The shortcut writes just the edited texts that differ from the mirror. |
| `DocSync.DocSync.Push` | apps/runner/src/doc-sync.ts:291-346 | A push sends the operations of one plan, in order, and makes the step of that name; it is the full comparison's plan exactly if the tree is marked or the mirror has no file where the room has a folder. |
| `DocSync.DocSync.AttachAgent` | apps/runner/src/doc-sync.ts:106-122 | Attaching makes the mirror what the room shows, and leaves any sandbox as exactly the room if and only if each binary file is in the store or was there already. |
| `DocSync.DocSync.ProgramWrote` | apps/runner/src/doc-sync.ts:189-233 | A file or blob report makes the step of that name: new mirror, document, marks and store; one that is not taken up is a file left alone. |
| `DocSync.DocSync.ProgramRemoved` | apps/runner/src/doc-sync.ts:201-205 | So does a removal: the mirror forgets the file, and a live node goes to the trash (`Reports.RemovedLeavesRoom` says what that does). |
| `DocSync.DocSync.ProgramMadeFolder` | sandbox/agent/src/workspace.ts:111-111 | A folder that a program makes is not reported, and changes nothing but the sandbox. |
| `DocSync.DocSync.ProgramRemovedFolder` | sandbox/agent/src/workspace.ts:108-110 | Nor is an empty folder that it removes. |
| `DocSync.DocSync.EditTree` | apps/runner/src/doc-sync.ts:83-91 | Any change of the nodes marks the tree, and the texts edited with it. |
| `SyncRuns.EveryRunRight` | apps/runner/src/doc-sync.ts:189-346 | After every step of every run of edits, pushes and reports the memory of the last push is right. |
| `SyncRuns.EveryRunInSync` | apps/runner/src/doc-sync.ts:189-346 | In every run the mirror's files are the sandbox's after each step if and only if each push by full comparison was answered and met no stale folder, and no file was left alone that the mirror has not. |
| `SyncRuns.PushedIsShown` | apps/runner/src/doc-sync.ts:291-346 | In any such run a push leaves the sandbox with every file the room shows, and no other, but that a shortcut leaves a file where the room has a folder. |
| `SyncRuns.NotEchoed` | apps/runner/src/doc-sync.ts:189-233 | In any run a push right after a program wrote a file has no operation at its path, if and only if it is a shortcut, or the room takes the file there and the mirror listed no folder there. |
| `SyncRuns.AttachedIsKept` | apps/runner/src/doc-sync.ts:106-122 | A sandbox brought in line with the room is where such a run begins. |
| `Attach.AttachIsExact` | sandbox/agent/src/workspace.ts:76-100 | Reconciling, making all folders and writing all files gives exactly the room if and only if every binary file is at hand. |
| `TarPaths.SplitFound` | apps/runner/src/judge-box.ts:33-41 | A split of a path into prefix and name is found if and only if the format allows one. |
| `TarPaths.SplitJoins` | apps/runner/src/judge-box.ts:33-41 | Prefix, slash and name give back the path, unless it has 101 bytes and begins with its only usable slash. |
| `TarPaths.AncestorsRepresentable` | apps/runner/src/judge-box.ts:33-41 | When a path fits the format, so does every folder above it with its trailing slash. |
| `Ustar.ChecksumFits` | apps/runner/src/judge-box.ts:55-57 | The sum of any 512 bytes fits six octal digits, so its field is eight bytes. |
| `TarFields.ReadField` | apps/runner/src/judge-box.ts:27-29 | A zero-padded octal number reads back as itself. |
| `Ustar.TarHeader` | apps/runner/src/judge-box.ts:32-59 | Writing the fields one by one into 512 zero bytes, with a size that may run over into the next field, gives the header's bytes. |
| `TarArchive.TarOf` | apps/runner/src/judge-box.ts:62-80 | The loops give the blocks of each file after those of its folders not seen yet, and 1,024 zero bytes. |
| `TarArchive.FolderListExact` | apps/runner/src/judge-box.ts:66-68 | The folders of a path are just its prefixes that end before a slash. |
| `TarArchive.FoldersHaveOneEntry` | apps/runner/src/judge-box.ts:64-73 | No folder has two entries. |
| `TarArchive.FoldersComeFirst` | apps/runner/src/judge-box.ts:64-76 | Every folder above an entry has its own entry before it. |
| `TarReader.HeaderReads` | apps/runner/src/judge-box.ts:42-58 | A ustar reader gets path, size and kind back out of a header, and its checksum is right. |
| `TarReader.OwnersRead` | apps/runner/src/judge-box.ts:44-56 | A header tells mode 2775 for folders and 664 for files, user 10001 and group 10000, the kind 0 or 5, no time, and no link, device or names. |
| `TarReader.SizeReadsBack` | apps/runner/src/judge-box.ts:48-48 | The size field reads back as the size if and only if it is below 8 to the 12th. |
| `TarReader.ArchiveRoundTrip` | apps/runner/src/judge-box.ts:62-80 | Reading an archive gives every file whose path fits, in order, with its exact bytes; under its own path in all cases if and only if no path is one that loses its leading slash. |
| `TarReader.FoldersReadFirst` | apps/runner/src/judge-box.ts:62-80 | A reader gets, for each folder above an entry, exactly one entry, and before it, also when paths that do not fit are left out. |
| `TarReader.WholeBlocks` | apps/runner/src/judge-box.ts:76-79 | The archive's length is a multiple of 512. |
| `LspFrames.Frames.Push` | apps/runner/src/lsp.ts:57-80 | One chunk more: delivered messages and kept bytes are those of reading everything at once. |
| `LspFrames.ReadMore` | apps/runner/src/lsp.ts:62-80 | More bytes change nothing about what was already read. |
| `LspFrames.LengthHereIs` | apps/runner/src/lsp.ts:66-67 | A length is read where there are the name in any case, white space or none, and digits, all of which count. |
| `LspFrames.FirstLengthCounts` | apps/runner/src/lsp.ts:66-67 | Of several such places the first counts. |
| `LspFrames.CutsDoNotMatter` | apps/runner/src/lsp.ts:57-80 | For any bytes, two ways of cutting them into chunks deliver the same messages and keep the same bytes. |
| `LspFrames.FrameAfterStray` | apps/runner/src/lsp.ts:62-80 | After any stray text that holds no blank line: a message is read properly if the text names no length, exactly when it is the message's if it names one within the limit; one over the limit makes the message be read on as if it were headers, and the last one is never delivered. |
| `LspFrames.FramesRoundTrip` | apps/runner/src/lsp.ts:134-138 | Messages within the limit, framed and cut anywhere, come out as they went in, and nothing is left. |
| `GitStatus.ParseStatus` | apps/runner/src/git.ts:80-107 | The index loop, which skips past a rename's old path, reads the records of the split text. |
| `GitStatus.RecordRoundTrip` | apps/runner/src/git.ts:86-104 | Each printed record reads as what it means, and a rename's old path is never a record of its own. |
| `GitStatus.StatusRoundTrip` | apps/runner/src/git.ts:80-107 | Parsing inverts the porcelain v2 printer for any list of records with NUL-free paths, spaces in them or not. |
| `GitStatus.LettersTell` | apps/runner/src/git.ts:80-97 | A printed change is read as one change of its path: a dot is no mark, the letters M, A, D, R, C and T are their own, and any other is M. |
| `GitStatus.OthersTell` | apps/runner/src/git.ts:80-107 | What the other printed records change of a status: the branch, the first seven digits of the commit, conflicts and untracked files. |
| `GitStatus.OddRecords` | apps/runner/src/git.ts:80-107 | A record with too few letters counts as modified, one with too few fields has no path, and any other kind changes nothing. |
| `RateLimiter.SlidingWindowRateLimiter.Hit` | server/core/security.py:51-65 | Popping and appending gives the key's new queue and answer, and no other key's queue changes. |
| `RateLimiter.DecidesAsHistory` | server/core/security.py:54-65 | A hit is accepted if and only if fewer than the limit of all hits ever accepted are in the window behind it. |
| `RateLimiter.NoWindowHoldsMore` | server/core/security.py:46-65 | No half-open interval as long as the window, wherever it begins, holds more accepted hits than the limit. |
| `RateLimiter.FewTogether` | server/core/security.py:46-65 | Accepted hits that lie within less than a window are no more than the limit. |
| `RateLimiter.RetryIsExact` | server/core/security.py:60-62 | After a refusal every hit before the time it tells is refused, and the first from then on accepted. |
| `RateLimiter.SecondsAreEnough` | server/core/security.py:120-124 | Of the whole seconds a caller can wait, those told are the fewest after which a hit is accepted. |
| `RateLimiter.KeysAreApart` | server/core/security.py:48-55 | In a run over many keys each key's queue is that of its own hits alone. |
| `Subnets.FreeSubnets` | apps/runner/src/subnets.ts:19-27 | The generator's values, in order; none when the base is no range. |
| `Subnets.FreeSubnetsExact` | apps/runner/src/subnets.ts:19-27 | Yielded are just the aligned blocks of the base that overlap no range a listed string parses to, ascending and apart, each parsing back to its own range. |
| `Subnets.UsedAre` | apps/runner/src/subnets.ts:23-23 | The ranges kept are those that listed strings parse to, each once for each of its strings, in order, none left out. |
| `Subnets.ParseReads` | apps/runner/src/subnets.ts:9-16 | Any four octets with any number of bits to 32 parse to the aligned block their address lies in. |
| `Subnets.OnlyCidrsParse` | apps/runner/src/subnets.ts:9-16 | Nothing else parses. |
| `Subnets.BlockReadsBack` | apps/runner/src/subnets.ts:5-16 | Writing an aligned block and parsing it gives the block. |
| `Subnets.ParsedIsNetwork` | apps/runner/src/subnets.ts:9-16 | A parsed range is a power of two long, aligned, and within 32 bits. |
| `Subnets.OverlapIsSharing` | apps/runner/src/subnets.ts:25-25 | The overlap test holds if and only if two ranges share an address. |
| `Subnets.RoomForMore` | apps/runner/src/subnets.ts:19-27 | Whatever ranges are listed, at least as many blocks are free as the base has beyond those the ranges take: none by one elsewhere, one by a smaller one, its own by a larger one. |
| `Subnets.AtMostOneEach` | apps/runner/src/subnets.ts:19-27 | When those over the base are no larger than a block, each takes at most one. |
| `Subnets.RoomsOfSixteenBits` | apps/runner/src/env.ts:34-42 | Of a /16 that nothing listed overlaps 1,024 blocks are free for rooms. |
| `Subnets.EnsureNetwork` | apps/runner/src/sandbox.ts:309-336 | The first free block that is created, that was made by somebody else meanwhile, or that fails for another reason than an overlap decides; there is no room if and only if all are refused as overlapping. |
| `Subnets.NoRoomMeans` | apps/runner/src/sandbox.ts:313-335 | No room means that every aligned block of the range that overlaps no listed one was refused as overlapping. |
| `Notebook.Kernel.Enqueue` | apps/runner/src/notebooks.ts:175-176 | Cells that are neither running nor queued join the queue, in order. |
| `Notebook.Kernel.Resume` | apps/runner/src/notebooks.ts:186-186 | A call of `run` that continues starts the next cell, unless one is running. |
| `Notebook.Kernel.Stop` | apps/runner/src/notebooks.ts:188-194 | An interrupt empties the queue, and goes to the driver. |
| `Notebook.Kernel.StartNext` | apps/runner/src/notebooks.ts:282-299 | The loop starts the first queued cell there still is, or comes to rest. |
| `Notebook.Kernel.OnMessage` | apps/runner/src/notebooks.ts:317-352 | A `done` of the running cell goes on, cancels the queue, or ends the kernel's life; any other message changes nothing here. |
| `Notebook.KernelDriver.ReadLine` | sandbox/image/kernel.py:103-114 | The reading thread queues a job, but an interrupt, which is acted on at once. |
| `Notebook.KernelDriver.TakeJob` | sandbox/image/kernel.py:117-129 | The loop takes the next job: a cell runs, or is answered `dead` when the kernel is. |
| `Notebook.OnlyTheRunningCell` | sandbox/image/kernel.py:101-129 | Over both streams and both programs, what is in flight is exactly the running cell. |
| `Notebook.OneAtATime` | apps/runner/src/notebooks.ts:174-194 | In every run of one driver's life: at most one cell in flight, the running one, never queued too; no duplicates in the queue; `done`s answer what was sent in order; and what waits has a call still to continue. |
| `Notebook.AskedOrder` | apps/runner/src/notebooks.ts:174-187 | In every run the cells that were executed, then those queued, are some of those that the calls of `run` were given, in that order. |
| `Notebook.FailureCancels` | apps/runner/src/notebooks.ts:340-352 | Whatever executes after a cell failed or the kernel died was given to a call of `run` after that, and in that order. |
| `Notebook.JoiningIs` | apps/runner/src/notebooks.ts:175-175 | What joins the queue are just the cells given that neither run nor wait, each from its first place, in the order of these places. |
| `Notebook.RunTells` | apps/runner/src/notebooks.ts:174-187 | A call of `run` sends nothing, and afterwards each of its cells runs or waits. |
| `Notebook.FirstCellRuns` | apps/runner/src/notebooks.ts:174-187 | In a fresh kernel a cell that is asked for runs once its request is read and taken. |
| `Notebook.HearTells` | apps/runner/src/notebooks.ts:317-352 | After a cell that finished the next queued one that still exists runs, and those behind it wait; a failure empties the queue, and a death ends the kernel's life. |
| `Notebook.ResumeTells` | apps/runner/src/notebooks.ts:186-186 | A call that continues starts the next queued cell that still exists, exactly if none runs. |
| `Notebook.DriverTells` | sandbox/image/kernel.py:117-129 | The driver takes its jobs in order: a cell runs, or is answered at once when the kernel is dead, until a restart. |
| `Notebook.RestartForgets` | apps/runner/src/notebooks.ts:196-212 | A restart keeps the count of what is in flight right if and only if no cell is running. |
| `AgentChannel.AgentChannel.Request` | apps/runner/src/agent-channel.ts:55-67 | A request gets the next id, a timer and a place among the pending, or is refused after the end. |
| `AgentChannel.AgentChannel.Timeout` | apps/runner/src/agent-channel.ts:59-62 | A timer that goes off rejects its request, and takes it from the pending. |
| `AgentChannel.AgentChannel.OnData` | apps/runner/src/agent-channel.ts:91-111 | The loop hears every whole line of what has come and keeps the rest. |
| `AgentChannel.AgentChannel.Dispatch` | apps/runner/src/agent-channel.ts:113-127 | An answer settles its request if it is pending; everything else passes on (`AgentChannel.LinesAreAnswered` says how). |
| `AgentChannel.AgentChannel.Close` | apps/runner/src/agent-channel.ts:78-89 | Every pending request is rejected, in order; once. |
| `AgentChannel.EachSettlesOnce` | apps/runner/src/agent-channel.ts:55-127 | In any interleaving: ids are never used twice, every sent request was settled once or waits with its timer set, and none waits after the end. |
| `AgentChannel.NoneLeftWaiting` | apps/runner/src/agent-channel.ts:78-89 | After the end every request ever sent has been settled once. |
| `AgentChannel.SuccessWasSaid` | apps/runner/src/agent-channel.ts:113-121 | A request succeeds only on a line that says so for its id. |
| `AgentChannel.LinesAreAnswered` | apps/runner/src/agent-channel.ts:91-127 | In every run each line is followed by what it means: an `ok` resolves and an `error` rejects, with its message, the request of its id if that was sent and is not settled; any other line warns, makes ready or passes on; and every rejection gives what the agent said, the operation that timed out, or the reason of the end. |
| `AgentChannel.TimeoutTells` | apps/runner/src/agent-channel.ts:59-62 | In any run a timer rejects its request if that waits, naming the operation it was sent for, and else does nothing. |
| `AgentChannel.CloseTells` | apps/runner/src/agent-channel.ts:78-89 | In any run the end rejects just the requests that wait, in the order they were asked, with its reason; a second end does nothing. |
| `AgentChannel.AskTells` | apps/runner/src/agent-channel.ts:55-67 | In any run a request is sent under the next number, or refused once the channel has ended. |
| `AgentChannel.LinesAsPrinted` | apps/runner/src/agent-channel.ts:91-111 | However requests, timeouts and the end fall between chunks, the lines heard are those of all that was printed. |
| `AgentChannel.CutsDoNotMatter` | apps/runner/src/agent-channel.ts:91-111 | One chunk or two make no difference to anything. |
| `Membership.EveryRunKept` | server/database.py:910-952 | In every run of calls each room has an owner, owners and role holders take part, all it names are accounts, and a pending request is its user's latest. |
| `Membership.CallKept` | server/database.py:1169-1567 | Every single call keeps that. |
| `Membership.DeletedIsGone` | server/database.py:910-952 | A deleted account is in no room's owners, participants, roles or requests, from then on. |
| `Membership.OnlyLetIn` | server/database.py:1224-1316 | Someone comes into a room only by making it, by joining one without approval that is public or whose own token they bring, or by one of its owners. |
| `Membership.OnlyOwnersMakeOwners` | server/database.py:1445-1503 | Someone comes to own a room only by making it or by one of its owners. |
| `Membership.HowRoomsEnd` | server/database.py:918-934 | A room ends if and only if an owner deletes it or its one owner's account is deleted. |
| `Membership.RolesAfter` | server/database.py:1840-1847 | A call that succeeds sets the effective role of one person, and of nobody else; approving an owner's old request does not demote them. |
| `Membership.JoinTells` | server/database.py:1318-1357 | Someone who asks to join is told what came of it: in exactly when they are, waiting when they wait. |
| `Membership.DecisionTells` | server/database.py:1318-1357 | Someone whose pending request is decided is told so: in with the role, or rejected. |
| `RoomRules.JoinDecides` | server/database.py:1224-1316 | For someone not in a room: without its own token a private one stays shut; otherwise a pending request stays as it is, approval takes one new request, and without approval they are in, as a viewer of a public room or with no role of their own. |
| `RoomRules.DecisionDecides` | server/database.py:1359-1443 | Only an owner decides the first request with an id: approved, it brings its user in; rejected, nobody; nothing else changes. |
| `RoomRules.SetRoleDecides` | server/database.py:1445-1503 | A role is changed exactly by an owner, of a member, and not that of the last owner to another. |
| `RoomRules.AddDecides` | server/database.py:1508-1567 | The first account with the stripped and lowered address is let in exactly by an owner, and if it is not in yet. |
| `RoomRules.NobodyToAdd` | server/database.py:1508-1567 | With no such account nobody is. |
| `RoomRules.StatusTells` | server/database.py:1318-1357 | What someone is told: their role if they are in, else what became of their latest request. |
| `RoomRules.OthersKeepTheirs` | server/database.py:910-952 | When an account is deleted, a room that stays loses just that account, from each of its lists. |
| `RoomRules.OtherRoomsStay` | server/database.py:1224-1567 | A call on a room leaves all others and all accounts alone. |
| `Membership.Repository.DeleteUserAccount` | server/database.py:910-952 | Rooms solely owned go, others lose the account. |
| `Membership.Repository.CreateUser` | server/database.py:887-907 | A new account is added under its address in lower case. |
| `Membership.Repository.CreateRoom` | server/database.py:1169-1206 | A new room is owned by its maker, who takes part. |
| `Membership.Repository.JoinRoom` | server/database.py:1224-1316 | The branches of joining, in their order, with their errors. |
| `Membership.Repository.ApproveRequest` | server/database.py:1359-1411 | Approving marks the request and lets its user in with the role. |
| `Membership.Repository.RejectRequest` | server/database.py:1416-1443 | Rejecting marks the request, if there is one. |
| `Membership.Repository.UpdateMemberAccess` | server/database.py:1445-1503 | Promotion, demotion but of the last owner, and change of role. |
| `Membership.Repository.AddMemberByEmail` | server/database.py:1508-1567 | An account is let in by its address, stripped and in lower case, if it is not in already. |
| `Membership.Repository.RemoveRoom` | server/database.py:1576-1586 | Only an owner deletes a room. |
| `NodeNames.BuildUniqueNodeName` | server/database.py:2295-2315 | The loop finds the first numbered name that no sibling has. |
| `NodeNames.LeastNumber` | server/database.py:2295-2315 | A free name is kept; one that is not gets the least number, from two on, that makes it free. |
| `WhiteSpace.TrimTakesSpace` | server/database.py:2285-2291 | Stripping a name takes white space from its ends, all that is there and nothing else. |
| `NodeNames.NumberBeforeExtension` | server/database.py:2299-2306 | The number stands before the extension, which begins at the last dot. |
| `NodeNames.UniqueNameGood` | server/database.py:2285-2315 | The name found is slash-free, 1 to 120 long, and differs from its siblings in any case of letters. |
| `NodeNames.EnoughTries` | server/database.py:2304-2315 | With a base of at most 116 characters, one more try than the names taken is enough. |
| `NodeNames.EndsWithin` | server/database.py:2304-2315 | The loop ends if and only if one of the first tries is free, and always when the base leaves room for a number. |
| `NodeNames.LongNameTwice` | server/database.py:2304-2315 | For a name of 120 characters without an extension, taken already, the loop never ends. |
| `TreeRules.NormalizeWorkspaceTree` | server/database.py:1979-2042 | The recursive loops with shared counters give the normalised tree, or the first error. |
| `TreeRules.StoredKeepsRules` | server/database.py:1979-2042 | What is returned has slash-free sibling names, distinct in any case and 1 to 120 long, at most 500 nodes and 600,000 characters in all, and bounded depth. |
| `TreeRules.RoomyReturns` | server/database.py:1979-2042 | Normalising always ends when every name leaves room for a number. |
| `TreeRules.StoredAgain` | server/database.py:2195-2200 | Normalising what is stored changes nothing if and only if no name begins or ends with white space. |
| `TreeRules.CutLeavesSpace` | server/database.py:2286-2292 | A file whose name is cut just after a space is stored by another name when what was stored is stored again. |
| `TreeRules.StoredSeedsAndWritesBack` | server/services/collab.py:65-84 | Whatever is stored has a path for each file, and a document seeded from it writes back nothing new. |
| `RoomTree.RoomDoc.SeedFromTree` | server/services/collab.py:65-84 | Seeding adds every file's text that the document has not, and leaves the rest. |
| `RoomTree.ReplaceFileContents` | server/database.py:1588-1629 | The walk gives the written tree, and `changed` if and only if it differs. |
| `RoomTree.PathsIdentify` | server/services/collab.py:69-77 | With slash-free names, distinct in each folder, no two files have one path. |
| `RoomTree.PathsTell` | server/services/collab.py:69-77 | A file's path is its name after those of its folders, with slashes between, and one without content is empty. |
| `RoomTree.WrittenReadsBack` | server/database.py:1606-1620 | Writing any map back and flattening gives the old map updated by it, at the paths there are. |
| `RoomTree.WrittenKeepsShape` | server/database.py:1606-1620 | Writing back keeps ids, names, folders and order. |
| `RoomTree.SeededWritesBack` | server/database.py:1603-1621 | Writing back what was taken out changes nothing if and only if no file's content is missing. |
| `Passages.WindowsOf` | sandbox/image/codebase_search.py:126-135 | The loop yields all windows that are not blank. |
| `Passages.CutsCover` | sandbox/image/codebase_search.py:126-135 | Windows fill their lines, stay in them, have at most 40, and overlap by exactly eight. |
| `Passages.PassagesOf` | sandbox/image/codebase_search.py:148-165 | The loop over functions gives their passages and the windows between. |
| `Passages.PassagesComplete` | sandbox/image/codebase_search.py:148-166 | For any functions inside the file every line with text is in a passage, passages stay in the file and have at most 150 lines. |
| `Passages.FunctionsWhole` | sandbox/image/codebase_search.py:155-164 | Functions one after the other are whole passages with their names, but for those longer than a passage may be. |
| `Passages.PassagesFrom` | sandbox/image/codebase_search.py:148-166 | With functions one after the other each passage lies in one of them, with its name, or between them, with none. |
| `Passages.InnerBringNone` | sandbox/image/codebase_search.py:155-164 | Functions that begin inside one that is in already bring no passages. |
| `Passages.SecretsStayCovered` | sandbox/image/codebase_search.py:150-153 | That holds with secret lines taken out, and those lines are in a passage too. |
| `CodebaseIndex.RefreshedExact` | sandbox/image/codebase_search.py:190-222 | From an index exact for the files as they were, a refresh makes one exact for the files as they are: hashes, passages, ids of their own, no vanished path, never more than the limit. |
| `CodebaseIndex.EveryRefreshExact` | sandbox/image/codebase_search.py:190-222 | So it is after any number of refreshes, however the files change between. |
| `CodebaseIndex.RefreshedComplete` | sandbox/image/codebase_search.py:209-216 | No file is left out, and none is said to be, if and only if all passages together are within the limit. |
| `CodebaseIndex.LeftOutFitsNot` | sandbox/image/codebase_search.py:209-216 | A file is left out only if its passages do not fit beside all that is in. |
| `CodebaseIndex.NextIdFollows` | sandbox/image/codebase_search.py:200-200 | Ids go on from the greatest there is. |
| `CodebaseIndex.Index.Refresh` | sandbox/image/codebase_search.py:190-222 | The method with its loops makes just that index, and returns how many files changed and the note: that passages, or else files, were left out. |

## Left out

- Yjs, Hocuspocus and pycrdt, JSON and UTF-8: documents are maps, messages are bytes or lines, and a line's meaning is a parameter.
- Letters: lower case is that of ASCII letters, and paths in archives are ASCII, as the code cuts by character and limits by byte.
- RoomNodes.TreeIsTree: names are there and without slashes; the model's rooms have no others, though nothing in the code refuses them (`RoomNodes.BlankNameCollides` and `RoomNodes.SlashNameCollides` say what happens to others).
- RoomNodes.ListTree: gives the tree by path; the order in which one folder's nodes are listed, folders first and then by name, is not modelled.
- SiblingNames.ResolveSiblingNames: ids are numbers, where the code compares UUIDs as text: in both a total order.
- SyncRuns.EveryRunInSync: a program's new files that are taken up have no blank name to be made, and ids that nothing has yet; a blank name makes a room whose paths do not tell its nodes (`RoomDoc.WithFileOk`).
- RoomDoc.SetDataShows: a blob is its hash; its type, which the code compares too, is not modelled, so that new bytes with the same hash and another type are no change here, where the code marks the tree and compares all once more.
- A path the agent refuses (empty, or with an empty, `.` or `..` part): the failure of a push is not modelled.
- DocSync.DocSync.EditText: a text edited in a call of its own; texts made or removed by other peers are changes of the tree.
- DocSync.DocSync.AttachAgent: edits while it waits are not modelled, nor are reports that cross a push; the code does not guard against them.
- The agent's memory of what it wrote (`known`), ignored folders, symbolic links and files too large to report: in a run such a file is one left alone.
- Maps are visited in any order where the code visits them in insertion order; the proofs hold for every order.
- The object store is the set of hashes it can answer for; failures while fetching are an absent hash.
- TarReader.FoldersReadFirst: asks for paths that do not begin with a slash, as the room's do not; `TarPaths.SplitJoins` says what happens to one that does.
- TarReader.ArchiveRoundTrip: asks for paths without NUL and sizes below 8 to the 12th, because others cannot be told from a header (`TarReader.SizeReadsBack`).
- RateLimiter.DecidesAsHistory: time is a real number, the clock does not go back, and a key's limit is at least one and always the same; with a limit of zero the code fails on an empty queue.
- Subnets.EnsureNetwork: what Docker answers for a block is a function of the block; the request itself is not modelled.
- Notebook.OneAtATime: one driver's life; starting, shutting down and restarting a kernel, outputs in the notebook's cells and the JSON lines are not in it (`Notebook.RestartForgets` says what a restart breaks).
- AgentChannel.EachSettlesOnce: waiting for the agent to be ready, and tunnel messages, which nobody answers, are not counted.
- Membership.EveryRunKept: calls are atomic, callers have accounts (server/core/security.py:213-219), and rooms were made by `create_room`; rooms from before `owner_ids`, invite links' renewal and room settings are not in it.
- TreeRules.NormalizeWorkspaceTree: ids to be made are given, GitHub metadata is not kept, and a children field that is no list is an empty one.
- Passages.PassagesOf: the functions found in a file are given, as are the lines with secrets; the passages' text, its limits and its cleaning are not modelled.
- CodebaseIndex.Index.Refresh: taking out secret lines is part of how a file is cut (`Passages.SecretsStayCovered` is about it), so that a file whose secrets alone change is not covered; listing the files, and how many were too many, are given.
- CodebaseIndex.RefreshedExact: no two texts have the same hash, and how a file is cut depends on its path and text alone; embeddings, word search and ranking are not in it.
- Docker, Kubernetes, HTTP, WebSockets, processes, the web interface, templates, email and sign-in: calls into systems a model cannot see, or no property to prove.
- The tunnel, gateway and debugger multiplexing: the same shape as the agent channel.
- The build lock of `sandbox/image/flow.py`: it rests on waits by the clock.
