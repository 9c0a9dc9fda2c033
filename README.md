# file_watcher transfer worker in Dafny

This project models the transfer core of `file_watcher`, a service that
copies each new file under a source directory into a flat target directory
exactly once. It keeps a ledger of the base names it has already copied
and rewrites the ledger's record file after every copy.

The core is `handleFileAdd` (src/service.ts). It is given a path. For a
directory it handles every listed entry in turn, awaiting each one. For a
file it does nothing when the file's base name is already in the ledger.
Otherwise it copies the file to `TARGET_DIR/<basename>`, adds the name to
the ledger and saves the whole ledger. `loadRecord` reads the ledger at
start-up and falls back to an empty ledger. `saveRecord` overwrites the
record file.

How the model is built:

- The file system is a snapshot tree (`Worker.Node`). A node is a `File`,
  a `Dir` with its entries in listing order, `Missing` (`stat` fails) or
  `Unlistable` (`readdir` fails). A `File` also carries two flags: whether
  its `copyFile` succeeds, and whether the record write after it succeeds.
- The ledger is a sequence without duplicates, oldest name first. A
  JavaScript `Set` iterates in insertion order, and `Array.from` keeps that
  order, so this is exactly what `saveRecord` writes.
- The record file is seen through its parsed contents: `Some(names)`, or
  `None` when it is missing or does not parse.
- The target directory is a map from base name to content.
- `Worker.Walk` / `Worker.WalkFrom` are `handleFileAdd` as a function of that
  state. `Service.Transfer` is the imperative version: a class whose fields
  are updated in place, with a recursive `HandlePath` method and its `for`
  loop. It is proved equal to `Walk`.
- `Traversal.Flatten` / `Traversal.Run` are an independent reference: the
  depth-first list of leaves in listing order, handled one after another
  until the first failure. `Traversal.WalkIsRun` proves the recursive
  worker is exactly that list run in order. The properties are proved on
  `Run` (`RunFacts`) and carried over to `Walk` and the tree (`WalkFacts`).

Points of the code's behaviour that the model keeps as written:

- Each child is awaited inside the `for` loop, so the first rejection ends
  the loop and propagates to the caller; later siblings are not handled
  (src/service.ts:68-71; `WalkStopsAtFailure`, `WalkPropagatesFailure`).
- Of two same-named files reached in one walk, the second is skipped
  because its name is already recorded, so the target keeps the first
  (src/service.ts:74-75; `WalkFirstWins`, `Scenarios.Collision`).
- `record.add` runs before `saveRecord`. So when the record write fails,
  the in-memory ledger still holds the name, but the record file does not
  (`HandleFile`; `RunSynced` and `RunKeepsDurable` exclude this case).

## Model

| member | source | states |
|---|---|---|
| `Paths.TrimTrailingSlashes` | src/service.ts:74 | the result is a prefix of the path, does not end in '/', and everything it drops is '/' |
| `Paths.LastSegment` | src/service.ts:74 | the last segment contains no separator and is no longer than the path |
| `Paths.LastSegmentIsSuffix` | src/service.ts:74 | the last segment is the suffix of the path that begins after a '/' or at its start |
| `Paths.Basename` | src/service.ts:74 | a base name contains no separator; for a path without a trailing '/' it is the last segment |
| `Paths.BasenameIgnoresTrailingSlash` | src/service.ts:74 | a trailing separator does not change the base name |
| `Paths.LastSegmentAfterSeparator` | src/service.ts:69 | a separator-free word after a '/' (or at the start) is the last segment |
| `Paths.Join` | src/service.ts:69 | the length of `path.join(dir, name)`: directory plus name, plus one separator unless the directory is empty or already ends in '/'; its contents are stated by `JoinParts` and its property by `BasenameOfJoin` |
| `Paths.JoinParts` | src/service.ts:69 | `path.join(dir, name)` starts with the directory, ends with the name, and the one added character, when there is one, is '/' |
| `Paths.BasenameOfJoin` | src/service.ts:69 | the base name of `path.join(dir, name)` is `name` for every directory and every entry name a listing can report (non-empty, no separator, not `.` or `..`) |
| `Paths.BasenameOfSegment` | src/service.ts:74 | an entry name is its own base name |
| `Ledger.Dedup` | src/service.ts:52 | `new Set(array)` holds each name of the array once and no other name |
| `Ledger.DedupOfNoDup` | src/service.ts:52 | a duplicate-free array becomes a set with the same elements in the same order |
| `Ledger.LoadRecord` | src/service.ts:49-56 | a missing or unparsable record file loads as the empty ledger; otherwise the ledger holds exactly the stored names, each once |
| `Ledger.LoadAfterSave` | src/service.ts:58-60 | loading the file that `saveRecord` wrote gives back exactly the saved ledger |
| `Worker.HandleFile` | src/service.ts:74-80 | a file whose base name is recorded changes nothing; a failing copy changes nothing; a successful copy appends the name, stores the content under it, and saves the whole ledger when the write succeeds, and a rejected write (after the name was added and the content stored) ends as `SaveFailed`, never as a copy failure; only `target[basename]` can change |
| `Worker.Walk` | src/service.ts:62-82 | the ledger only grows (the old ledger is a prefix of the new one) and stays duplicate-free, whatever happens |
| `Worker.WalkFrom` | src/service.ts:68-71 | the same for the rest of a directory listing |
| `Traversal.Flatten` | src/service.ts:63-75 | the reference definition of the traversal order (a directory's leaves are its entries' leaves in listing order); its meaning is established by `WalkIsRun` (the worker runs exactly these leaves) and `LeafNamesAreFileNames` (their base names are the tree's file names) |
| `Traversal.Run` | src/service.ts:68-80 | running leaves in order only grows the ledger and keeps it duplicate-free |
| `Traversal.Names` | src/service.ts:74 | the base names of the files are exactly the names of the copy actions' paths |
| `Traversal.RunAppend` | src/service.ts:68-71 | running two lists in a row is running the first and, unless it failed, the second |
| `Traversal.WalkIsRun` | src/service.ts:62-82 | the recursive worker does exactly what running its flattened leaves in traversal order does |
| `Traversal.WalkFromIsRun` | src/service.ts:68-71 | the same for the rest of a directory listing |
| `RunFacts.RunOkOnlyCopies` | src/service.ts:63-67 | a successful run met only files: a vanished or unreadable path always fails the walk |
| `RunFacts.RunRecordsEveryName` | src/service.ts:79 | on success, the new ledger holds exactly the old names and the base names of all files reached |
| `RunFacts.ActFrame` | src/service.ts:77-78 | one leaf changes no target entry other than its own base name's, and not that one either when the name was already recorded |
| `RunFacts.RunTargetFrame` | src/service.ts:74-78 | a run changes no target entry whose name is not a reached base name, nor any entry whose name was already recorded |
| `RunFacts.RunRecordInTarget` | src/service.ts:78-79 | whatever the outcome, if every recorded name had a target entry before a run, it still does after, since a name is recorded only after its copy |
| `RunFacts.RunNewNamesInTarget` | src/service.ts:77-79 | on success, every newly recorded base name has a target entry |
| `RunFacts.RunFirstWins` | src/service.ts:68-75 | among files sharing an unrecorded base name, the target keeps the content of the first one in run order, once the run has got past that file, whatever happens later |
| `RunFacts.RunSkipsRecorded` | src/service.ts:74-75 | files whose base names are all recorded are all skipped, and the state is unchanged |
| `RunFacts.RunRepeat` | src/service.ts:74-75 | running the same leaves again after a success changes nothing |
| `RunFacts.RunStopsAtFailure` | src/service.ts:68-71 | after a failure, nothing that follows is handled |
| `RunFacts.RunCopyFailureNotRecorded` | src/service.ts:78-79 | when a run fails on a copy, that file's base name is not in the ledger |
| `RunFacts.RunSynced` | src/service.ts:79-80 | unless the record write failed: a run that added names leaves the record file equal to the ledger, and a run that added none changed nothing |
| `RunFacts.RunKeepsDurable` | src/service.ts:80 | unless the record write failed, the record file keeps loading back as the in-memory ledger |
| `WalkFacts.NamesAppend` | src/service.ts:68-71 | the file names of two leaf lists in a row are the union of both |
| `WalkFacts.LeafNamesAreFileNames` | src/service.ts:65-74 | in a well-formed directory, the base names the walk copies by are the names of its files at every depth |
| `WalkFacts.LeafNamesAreFileNamesFrom` | src/service.ts:68-71 | the same for the rest of a directory listing |
| `WalkFacts.WalkRepeat` | src/service.ts:74-75 | idempotence: after a successful walk, handling the same subtree again changes nothing |
| `WalkFacts.WalkRecordInTarget` | src/service.ts:78-79 | on every outcome, including a failed copy or record write, a walk keeps every recorded name backed by a target entry |
| `WalkFacts.WalkCopiesEveryFile` | src/service.ts:65-79 | after a successful walk of a directory, the ledger is the old ledger plus every file name at any depth, and each newly recorded name is in the target |
| `WalkFacts.WalkTargetFrame` | src/service.ts:77-78 | a walk leaves alone every target entry whose name is no file name in the tree, and every entry whose name was already recorded |
| `WalkFacts.WalkFirstWins` | src/service.ts:68-75 | among files that share an unrecorded base name, the target keeps the first one in traversal order, once the walk has got past that file, even if it fails later |
| `WalkFacts.WalkFromAppend` | src/service.ts:68-71 | a listing is handled as its first part and then, unless that failed, its second part |
| `WalkFacts.WalkFromShift` | src/service.ts:68-71 | the entries after a prefix are handled as if the prefix were not listed |
| `WalkFacts.WalkStopsAtFailure` | src/service.ts:68-71 | once an entry fails, later entries of the listing are not handled |
| `WalkFacts.WalkPropagatesFailure` | src/service.ts:70 | a failing entry's error is the error of the directory that lists it |
| `WalkFacts.WalkCopyFailureNotRecorded` | src/service.ts:78-79 | when a walk fails on a copy, that file's base name is not recorded, so a later event retries it |
| `WalkFacts.WalkSynced` | src/service.ts:79-80 | unless the record write failed: a walk that recorded names leaves the record file equal to the ledger, and one that recorded none changed nothing |
| `WalkFacts.WalkSurvivesRestart` | src/service.ts:49-80 | after a successful walk, reloading the record file gives the same state, and handling the subtree again copies nothing |
| `Scenarios.FreshRun` | src/service.ts:62-82 | a file plus a nested file, with an empty target and no record file, are both copied under their own names and both recorded, in copy order |
| `Scenarios.Collision` | src/service.ts:68-75 | a nested file named like an earlier file is skipped, and the target keeps the earlier content |
| `Service.Transfer.constructor` | src/service.ts:85 | start-up: the ledger is what `loadRecord` gives for the record file |
| `Service.Transfer.SaveRecord` | src/service.ts:58-60 | the record file is overwritten with the whole ledger when the write succeeds and kept when it fails |
| `Service.Transfer.HandlePath` | src/service.ts:62-82 | the in-place updates to the ledger, the record file and the target are exactly those of `Walk`, and the ledger stays duplicate-free and only grows |

## Left out

- Configuration from environment variables and the process exit on a missing variable (src/service.ts:5-14, 109-112): plumbing with no logic.
- The logger and every `logger.*` call: fire-and-forget output.
- The start-up backlog loop (src/service.ts:88-91): its `handleFileAdd` calls are not awaited, so they run concurrently and race on the shared ledger. A sequential model would change that, so the loop and its races are not modelled.
- The chokidar watcher and its `add` handler (src/service.ts:93-104): event delivery from an external library. The handler only calls `handleFileAdd` and logs the error. Calls for separate events, like the backlog's calls, are not serialised and can interleave at every `await` on the shared ledger; the model treats each `handleFileAdd` call as running alone, so properties such as `RunSynced` hold only for a call that no other call interleaves with.
- Real file-system calls (`stat`, `readdir`, `copyFile`, `readFile`, `writeFile`). They are replaced by the snapshot tree, whose I/O outcomes are fixed node by node. Changes to the file system during a walk are only what the snapshot's nodes record.
- Partial writes: a failed `copyFile` leaves the target entry as it was, and a failed record write leaves the record file as it was. A real failure could leave a truncated file.
- JSON: the record file is modelled by its parsed contents. A parsed value that is not an array of names (`null`, a number, a string, which `new Set` would split into characters) is not modelled separately. It counts as unparsable.
- `Paths.Join`: adds a separator only. `path.join`'s clean-up of `.`, `..` and repeated separators is not modelled. It does not change the last segment of an entry path.
- `Paths.Basename`: POSIX only. Windows separators are not modelled.
- Symbolic-link cycles: the snapshot is a finite tree, so a directory that contains itself through a link is not represented.
