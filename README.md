# absfs core, modelled in Dafny

absfs is a Go package that defines an abstract filesystem interface. A
backend implements the seven `Filer` methods (`OpenFile`, `Mkdir`,
`Remove`, `Stat`, `Chmod`, `Chtimes`, `Chown`). `ExtendFiler` then wraps it
in a full `FileSystem`. The wrapper keeps its own working directory,
resolves relative names against it, and uses the backend's optional
methods when it has them (`Open`, `Create`, `MkdirAll`, `RemoveAll`,
`Truncate`, `Chdir`/`Getwd`, `Separator`, `ListSeparator`, `TempDir`).
Where the backend lacks one, the wrapper falls back on a generic version
built from `OpenFile`, `Mkdir`, `Remove` and the handles they return.

Around this core, the package also has:

- handle upgrade functions: `ExtendUnseekable` buffers a forward-only handle into a
  `seekbuffer`; `ExtendSeekable` and `fileadapter` turn a seekable handle
  into a full `File` by emulating `ReadAt`, `WriteAt`, `Truncate` and
  `Readdirnames` with `Seek`, `Read` and `Write`;
- the `InvalidFile` placeholder handle;
- the open-flag printer and parser (`Flags.String`, `ParseFlags`);
- the mode-string parser `ParseFileMode`, with the permission constants.

The model has these modules:

| file | module | what it holds |
|---|---|---|
| `common.dfy` | `Common` | `Option`, `Result`, bytes, errors, file info |
| `paths.dfy` | `Paths` | Go's `strings.Split`, `filepath.Clean`, `filepath.Join` and `filepath.IsAbs` on Unix, with the algebra of cleaned paths |
| `flags.dfy` | `OpenFlags` | flags as sets of bit positions on Linux/amd64 |
| `filemode.dfy` | `FileModes` | modes as sets of bit positions |
| `invalidfile.dfy` | `InvalidFiles` | the placeholder handle |
| `streams.dfy` | `Streams` | the handle the upgrade functions wrap, as pure step functions and a `Stream` class that performs them in place |
| `file.dfy` | `Files` | `seekbuffer`, `ExtendUnseekable`, `ExtendSeekable`, `file` |
| `fileadapter.dfy` | `Adapters` | `fileadapter` |
| `backend.dfy` | `Backends` | a `Filer` class that behaves like the package's own test backend (`filesystem_test.go`); each call it receives is appended to a ghost trace, with its arguments and its outcome |
| `filesystem.dfy` | `FileSystems` | `ExtendFiler` and the `FS` class (the source's `fs` type) |
| `scenarios.dfy` | `Scenarios` | concrete runs of the wrapper on a one-file backend |

Every `FS` method's contract is stated against the backend's call trace
and store:
- which backend calls the method makes, with which names and flags (for
  `removeAll` on a directory: the first listing call, the open each
  recursive removal begins with, and the final close and `Remove`; the
  calls inside the recursive removals are left to their own contracts);
- what it returns given their answers;
- what the backend's store holds afterwards (for `removeAll`: which nodes
  are gone, and that no node outside the removed path's subtree is).

## Model

| member | source | states |
|---|---|---|
| FileSystems.ExtendFiler | filesystem.go:86-89 | a fresh wrapper over the given backend, with working directory `/` |
| Paths.Resolve | filesystem.go:97-101 | the result is absolute exactly when the name is, or when the backend does not navigate and the working directory is absolute; a relative name resolved by the wrapper comes out already clean |
| Paths.ResolveRelative | filesystem.go:97-101 | against an absolute working directory, a relative name resolves to a clean absolute path whose elements are the name's elements applied, `..` included, to the directory's elements |
| Paths.ResolveAgainstCleanedCwd | filesystem.go:97-101 | resolving against a working directory and against its cleaned form give the same path |
| Paths.ResolveExtends | filesystem.go:97-101 | resolving a path with one more name appended reaches exactly one element deeper |
| Paths.Split | filesystem.go:245 | `strings.Split` gives at least one part, and no part contains the separator |
| Paths.SplitJoinWith | filesystem.go:245 | splitting the join of separator-free parts gives the parts back |
| Paths.JoinWithSplit | filesystem.go:245 | joining the parts of a split gives the string back |
| Paths.CleanElements | filesystem.go:99 | `Clean` keeps whether the path is absolute and keeps its elements, which are in normal form |
| Paths.CleanIdempotent | filesystem.go:99 | cleaning twice is cleaning once |
| Paths.CleanNonEmpty | filesystem.go:99 | a cleaned path is never empty |
| Paths.RenderElements | filesystem.go:99 | a normal element stack renders to a path that splits and folds back to the same stack |
| Paths.FoldAppend | filesystem.go:99 | cleaning folds over elements left to right: folding `a + b` is folding `b` onto the fold of `a` |
| Paths.FoldOfUnrootedFold | filesystem.go:99 | folding a sequence onto any stack is the same as folding its own unrooted normal form there |
| Paths.JoinExtends | filesystem.go:307 | `Join(path, name)` for a plain name has exactly one more element than `path`, namely `name` |
| Paths.JoinRenderedChild | filesystem.go:249 | joining a plain name onto a rendered absolute stack renders the stack extended by the name |
| FileSystems.FS.OpenFile | filesystem.go:96-103 | the backend's `OpenFile` gets the resolved name with the flag and mode unchanged, and its answer is returned as it is |
| FileSystems.FS.Mkdir | filesystem.go:105-112 | the backend's `Mkdir` on the resolved name: the error says whether the node already existed, and the directory is added exactly when there is no error |
| FileSystems.FS.Remove | filesystem.go:114-121 | the backend's `Remove` on the resolved name: a missing node is an error, and the node goes exactly when there is no error |
| FileSystems.FS.Stat | filesystem.go:123-130 | the backend's `Stat` on the resolved name, with its answer returned unchanged |
| FileSystems.FS.Chmod | filesystem.go:132-139 | the backend's `Chmod` on the resolved name, with the mode unchanged |
| FileSystems.FS.Chtimes | filesystem.go:141-149 | the backend's `Chtimes` on the resolved name, with both times unchanged |
| FileSystems.FS.Chown | filesystem.go:151-158 | the backend's `Chown` on the resolved name, with both ids unchanged |
| FileSystems.FS.Separator | filesystem.go:160-165 | the backend's separator when it has one, else `/` |
| FileSystems.FS.ListSeparator | filesystem.go:167-172 | the backend's list separator when it has one, else `:` |
| FileSystems.FS.Chdir | filesystem.go:174-193 | with a navigating backend, the backend's `Chdir` and nothing else, with its "not exist" and "invalid" errors. Otherwise it opens `dir` and returns any open error. It stats the handle: a stat error is returned, and a plain file gives "not a directory" on the raw `dir`. On success the working directory becomes `Clean(dir)`. The handle is always closed, and the close error is dropped |
| FileSystems.FS.chdirFallback | filesystem.go:178-192 | the exact backend calls of the fallback, in order (open, stat, close), and the outcome above; the new working directory is the cleaned `dir` as given, or, in the corrected form, the cleaned resolved name |
| FileSystems.FS.ChdirIntended | filesystem.go:174-193 | `Chdir` as evidently intended: every outcome and call of `Chdir` is the same, except that on success the fallback moves to the directory it opened, `Clean(Resolved(dir))`; on a backend without its own `Open` that is the key it opened, and an absolute working directory stays absolute |
| FileSystems.FS.Getwd | filesystem.go:195-200 | the backend's working directory when it navigates, else the wrapper's own; never an error |
| FileSystems.FS.TempDir | filesystem.go:202-208 | the backend's temporary directory when it has one, else the host's |
| FileSystems.FS.Open | filesystem.go:210-220 | the backend's `Open` with the raw name, or `OpenFile` read-only with mode 0 on the resolved name; the store is unchanged; the open fails exactly when the node is missing |
| FileSystems.FS.Create | filesystem.go:222-232 | the backend's `Create` with the raw name, or `OpenFile` with `O_CREATE`, `O_RDWR` and `O_TRUNC` and mode 0666 on the resolved name; the node exists afterwards and is emptied |
| FileSystems.FS.MkdirAll | filesystem.go:234-257 | with the native version, its one call, after which the store holds a new empty directory at the name and at each ancestor where nothing was and `Mkdir` is not refused (`MadeAll`). Otherwise one `Mkdir` with `perm` per path of `MkdirAllPaths`, in order. Each path ends up present, or made as a directory, or refused by the backend. Nodes are only added, and only at those paths. The error is always nil |
| FileSystems.FS.mkdirEach | filesystem.go:244-254 | the loop over the split name: after the loop, the `Mkdir` calls are exactly those for `MkdirAllPaths([sep], parts)` |
| FileSystems.FS.mkdirPart | filesystem.go:245-254 | one turn of the loop: an empty part is skipped, and the root is joined on but not made |
| FileSystems.FS.mkdirIgnoring | filesystem.go:253 | one `Mkdir` whose error is dropped keeps the `MkdirAll` invariant |
| FileSystems.MkdirAllMakesAncestors | filesystem.go:244-254 | for a clean absolute name, the paths handed to `Mkdir` are the name's ancestors below the root, outermost first, then the name itself: the same parts the test backend's native `MkdirAll` collects |
| FileSystems.MkdirAllPrefixesFrom | filesystem.go:244-254 | the same, from any ancestor on |
| FileSystems.FS.removeAll | filesystem.go:259-315 | `RemovedAll`. The first call opens `path`. When the open fails, its error is the result and nothing else happens. Otherwise the calls go on with the handle's `Stat` and end with the deferred close and `Remove` of `path` as given. The result is what the deferred block makes of the body's error and those two answers. A stat fault ends the body with no removal. A plain file is removed, as written twice. For a directory, the call after the `Stat` is `Readdirnames(512)` on the handle, and a listing fault is returned before any removal. Otherwise `removeAll` runs on `Join(path, name)` for the listed names other than `.` and `..`, in listing order. Each run begins with its own open, after the one before it returned nil. The first failing run ends the body, and its error is the body's. Without an error every such name was visited, and nothing is left at any of their paths. A nil result means nothing is left at `path`. The store only shrinks, and only nodes at or under the node of `path`, taken as given or resolved, leave it (`Within`). Termination is by the set of stored nodes at least as deep as the opened one |
| FileSystems.FS.removeOpened | filesystem.go:262-314 | `RemovedOpened`: the same, once the open succeeded, with the calls numbered from the open; and `Within`: nothing outside `path`'s subtree leaves the store |
| FileSystems.FS.removeBody | filesystem.go:282-314 | the body. The handle's `Stat` is the first call, and its fault is returned with nothing removed. A plain file goes through the wrapper's `Remove`, whose outcome is stated. For a directory, `EntriesRemoved` holds from the next call on. Either way nothing outside `path`'s subtree is removed |
| FileSystems.FS.closeAndRemove | filesystem.go:268-280 | the deferred block. As written, a failed body closes the handle once more. The result is the `Remove` error, else the close error, whatever the body returned |
| FileSystems.FS.removeEntries | filesystem.go:293-312 | `EntriesRemoved`, the listing loop. The first call is `Readdirnames(512)` on the handle. A listing fault is returned before any removal. Otherwise each listed name other than `.` and `..` is removed through `removeAll(Join(path, name))`, in order, each after the previous one returned nil. The first error is returned. With no error all the names were removed, and nothing is left at their paths. Nothing outside `path`'s subtree is removed |
| FileSystems.FS.removeNext | filesystem.go:296-311 | one turn of the loop: one `Readdirnames(512)` call, then the recursive removals of its names, which continue those of earlier turns in listing order. `EOF` comes only at the end of the listing, without a listing fault. Otherwise the listing moves on, or the first error ends the turn and is returned. Nothing outside `path`'s subtree is removed |
| FileSystems.FS.removeListed | filesystem.go:303-311 | the removals of one batch extend those of the batches before. Together they are the listed names so far, in order. Or they end at the first error, which is returned. Nothing outside `path`'s subtree is removed |
| FileSystems.FS.nextBatch | filesystem.go:297 | `Readdirnames(512)` on the directory handle: at most 512 names, the next ones of its listing, with `EOF` exactly when none are left. A listing fault gives that error and no names. The call is logged |
| FileSystems.FS.removeBatch | filesystem.go:303-311 | the names of one batch without `.` and `..`, in order. Each is removed through `removeAll(Join(path, name))`, whose open is logged, after the previous one returned nil. The first error stops the batch and is returned. Without one every name was removed, and nothing is left at its path. Nothing outside `path`'s subtree is removed |
| FileSystems.FS.removeName | filesystem.go:303-309 | one name of a batch: `.` and `..` are skipped. Any other is removed through `removeAll(Join(path, name))`, whose open is the next call. A nil result leaves nothing at that path, and nothing outside `path`'s subtree is removed |
| FileSystems.FS.removeChild | filesystem.go:307 | the recursive call on `Join(path, name)`: its first call opens that path, and a nil result leaves nothing there. Nothing outside the subtree of `Join(path, name)` is removed. It reaches one element deeper |
| FileSystems.FS.WithinJoin | filesystem.go:303-309 | what the removal of a listed name takes from the store lies under the directory being removed |
| FileSystems.FS.ChildKey | filesystem.go:307 | the node the recursive call opens is one element deeper than its parent |
| FileSystems.FS.RemoveAll | filesystem.go:317-328 | the native `RemoveAll` with the raw name, which removes that node or reports it missing. Otherwise `removeAll` as written on the resolved name, with the outcome `RemovedAll` describes, which keeps every node outside that name's subtree |
| FileSystems.FS.RemoveAllIntended | filesystem.go:317-328 | the same with the deferred block corrected: a plain file is removed once with no error, and the first error wins |
| FileSystems.FS.Truncate | filesystem.go:330-345 | the native `Truncate` on the raw name: a missing key gives "not exist", a negative size the backend's slice panic, and otherwise the node at `Key(name)` is resized to `size`; or `OpenFile` on the resolved name with `O_WRONLY` and `O_TRUNC` and mode 0666, then `Close`. A missing node gives the open error. An existing node is emptied whatever `size` is, and the close error is returned |
| FileSystems.FS.TruncateIntended | filesystem.go:330-345 | the native `Truncate` as in `Truncate`, with its errors and its resize of the node at `Key(name)`; the fallback corrected: the content becomes exactly `size` bytes (the old ones, then zeros); a negative size is refused and leaves the store unchanged |
| FileSystems.ChildrenAppend | filesystem.go:303-307 | the names `removeAll` recurses on, for two listings in a row, are those of the first followed by those of the second |
| Backends.Filer.OpenFile | filesystem.go:16-17 | the test backend's open: `O_CREATE` adds an empty file where nothing was, `O_TRUNC` empties the node, and the open fails exactly when no node is there; the call is logged |
| Backends.Opened | filesystem.go:16-17 | the store after an open has the same names, plus the opened one with `O_CREATE`, and every other node unchanged |
| Backends.Filer.Mkdir | filesystem.go:19-21 | an existing node or an injected fault is an error; otherwise an empty directory is added |
| Backends.Filer.Remove | filesystem.go:23-25 | a missing node or an injected fault is an error; otherwise the node goes |
| Backends.Filer.Stat | filesystem.go:27-29 | the node's info, or "not exist"; the call is logged |
| Backends.Filer.Chmod | filesystem.go:31-32 | "not exist" for a missing node, else success; the call is logged |
| Backends.Filer.Chtimes | filesystem.go:34-35 | as `Chmod` |
| Backends.Filer.Chown | filesystem.go:37-38 | as `Chmod` |
| Backends.Filer.Open | filesystem.go:349-351 | a native `Open`: read-only, and the store is unchanged |
| Backends.Filer.Create | filesystem.go:353-355 | a native `Create`: the node exists afterwards and is emptied |
| Backends.Filer.MkdirAll | filesystem_optional_test.go:68-83 | the test backend's `MkdirAll` (`MadeAll`). The store gains an empty directory at the cleaned name and at each ancestor below the root (or `.`), where nothing was and `Mkdir` is not refused. Nothing else changes. The result is nil, and the one call is logged |
| Backends.Filer.Lineage | filesystem_optional_test.go:69-75 | the `Dir` loop: the cleaned name's ancestors below the root or `.`, then the name, outermost first |
| Paths.RenderPrefix | filesystem_optional_test.go:72-74 | the loop stops at the root or `.` exactly when no element of the cleaned name is left |
| Backends.Filer.MkdirEach | filesystem_optional_test.go:77-81 | the loop over the parts: `MadeAll` for exactly those parts |
| Backends.Filer.MadeStep | filesystem_optional_test.go:78-80 | one more `Mkdir`, its refusal ignored, keeps `MadeAll` with one more key |
| Backends.Filer.RemoveAll | filesystem.go:361-363 | a native `RemoveAll`: the node goes, and "not exist" is reported for a missing one |
| Backends.Filer.Truncate | filesystem.go:382-384 | a native `Truncate`: a missing node is "not exist"; a negative size panics with the slice out of range, as the test backend's unchecked `content[:size]` does; otherwise the content is cut or zero-padded to `size` |
| Backends.Filer.Chdir | filesystem.go:373-376 | a native `Chdir`: moves to an existing directory, else reports "not exist", or "invalid" for a plain file as the test backend does, and stays |
| Backends.Filer.Getwd | filesystem.go:373-376 | a native `Getwd`: the backend's working directory |
| Backends.Resize | file.go:83-85 | exactly `n` bytes: the old ones, then zeros |
| Backends.Batch | file.go:87-96 | at most `n` names when `n > 0`, taken in order from the cursor, and empty only at the end of the listing |
| Backends.Handle.Readdirnames | file.go:87-96 | the next batch of names, with `EOF` for an empty batch when `n > 0`. A closed handle is refused, and so is a plain file. The cursor moves past the names returned |
| Backends.Handle.Stat | file.go:33-35 | the info of the node as opened, or an injected fault; the call is logged |
| Backends.Handle.Truncate | file.go:83-85 | a closed handle and a negative size are refused, in that order; otherwise the file is resized, in the store if it is still stored, and nil is returned |
| Backends.Handle.Close | file.go:24-26 | the handle is closed; a second close is refused, as `os.File` refuses it |
| Files.ExtendUnseekable | file.go:99-110 | the whole handle is read into a fresh buffer at offset 0; a read error is returned with no buffer |
| Files.BufferedThenSynced | file.go:99-110 | the buffer holds every byte of the handle from its offset on; since that read leaves the handle at its end, a later `Sync` appends the buffer after the data |
| Files.SeekBuffer.Read | file.go:180-187 | at or past the end, nothing and `EOF`. Otherwise at most `n` bytes from the offset, which moves past them. A negative offset panics. The data is unchanged |
| Files.SeekBuffer.Write | file.go:189-197 | as written: the data grows to fit, the bytes land at the offset, and the offset stays put. A negative offset panics |
| Files.BufferWritesOverlap | file.go:189-197 | as written, a second write lands on top of the first |
| Files.BufferWritesOverlapExample | file.go:189-197 | two one-byte writes to an empty buffer leave one byte |
| Files.SeekBuffer.WriteAdvancing | file.go:189-197 | the write with the offset moving past the bytes written |
| Files.BufferWritesConcatenate | file.go:189-197 | with the offset moving, two writes in a row write their concatenation |
| Files.SeekBuffer.Seek | file.go:226-236 | start, current or end plus `off`; an unknown `whence` leaves the offset alone; never an error |
| Files.SeekBuffer.Sync | file.go:208-216 | the whole buffer is written to the handle; a short write panics, else the handle's `Sync` answers |
| Files.SeekBuffer.Close | file.go:199-206 | `Sync`, then, unless that failed, the handle's `Close` |
| Files.SeekBuffer.Name | file.go:176-178 | the wrapped handle's name |
| Files.SeekBuffer.Stat | file.go:218-220 | the wrapped handle's `Stat`: refused exactly when it is closed, and otherwise its name, size and kind. The size is the handle's, not the buffer's |
| Files.SeekBuffer.Readdir | file.go:222-224 | the wrapped handle's `Readdir`: every entry of an open directory, whatever `n` is, and a closed handle or a plain file is refused |
| Files.ExtendSeekable | file.go:166-168 | always a fresh wrapper around the handle, even where fileadapter_test.go:335-348 expects the same object back |
| Files.FileWrapper.Read | file.go:246-248 | forwards to the handle's `Read` unchanged |
| Files.FileWrapper.Seek | file.go:266-268 | forwards to the handle's `Seek` unchanged |
| Files.FileWrapper.Write | file.go:281-283 | forwards to the handle's `Write` unchanged |
| Files.FileWrapper.ReadAt | file.go:270-279 | the native `ReadAt`, or a seek from the start (whose error is returned with nothing read) followed by a `Read` |
| Files.AtReadAgrees | file.go:270-279 | the seek-and-read fallback reads what a native `ReadAt` reads, with the same error, and leaves the offset just past the bytes |
| Files.FileWrapper.WriteAt | file.go:285-294 | the native `WriteAt`, or a seek from the start then a `Write` |
| Files.AtWriteAgrees | file.go:285-294 | the seek-and-write fallback leaves the bytes a native `WriteAt` leaves, with the same count and error |
| Files.AtNegativeOffset | file.go:270-294 | a negative offset is refused by both fallbacks, touching nothing |
| Files.FileWrapper.WriteString | file.go:296-302 | the native `WriteString` or `Write`; both leave the same bytes |
| Files.FileWrapper.Truncate | file.go:304-327 | the native `Truncate`. Otherwise `size` zero bytes from the start, in chunks of 512, stopping at the first write error |
| Files.FallbackNeverShrinks | file.go:304-327 | the truncation fallback never shortens the data: it zeroes a prefix and keeps the rest |
| Files.FileWrapper.Readdirnames | file.go:329-346 | the native `Readdirnames`, or the names of what `Readdir` lists, in order, or its error |
| Files.ReadNames | file.go:339-345 | the names are filled in one by one in listing order |
| Files.DirNamesAgree | file.go:329-346 | for an open directory the fallback lists the same names as a native `Readdirnames` |
| Files.FileWrapper.Close | file.go:348-350 | closing the wrapper does nothing and succeeds |
| Files.FileWrapper.Name | file.go:242-244 | the wrapped handle's name |
| Files.FileWrapper.Readdir | file.go:250-252 | the wrapped handle's `Readdir`: every entry of an open directory, whatever `n` is, and a closed handle or a plain file is refused |
| Files.FileWrapper.Sync | file.go:258-260 | the wrapped handle's `Sync`: refused exactly when it is closed |
| Files.FileWrapper.Stat | file.go:262-264 | the wrapped handle's `Stat`: refused exactly when it is closed, and otherwise its name, size and kind |
| Streams.ZeroFill | file.go:309-326 | the truncation fallback: a closed handle fails the seek, and otherwise the outcome is `ZeroFilled` |
| Streams.WriteZeros | file.go:314-325 | the loop: zeros written from offset 0 in chunks, up to the first short write |
| Streams.ChunksCover | file.go:316-319 | the chunk sizes add up to `size`, and all but the last are full |
| Streams.FillOutcome | file.go:316-326 | the loop's end state is the one `ZeroFilled` describes |
| Streams.Stream.Read | fileadapter_test.go:20-30 | the test handle's read: `EOF` at the end, and also after a short read; the offset moves past the bytes |
| Streams.Stream.Write | fileadapter_test.go:32-49 | the test handle's write: zero-fills up to the offset and splices the bytes in; the offset moves past them |
| Streams.Stream.Seek | fileadapter_test.go:69-86 | an unknown `whence` or a negative target is refused; otherwise the offset moves |
| Streams.WriteThenReadBack | fileadapter_test.go:20-86 | bytes written at an offset are read back from it |
| Streams.ReadMovesByCount | fileadapter_test.go:20-30 | a read never changes the bytes and moves the offset by exactly the count read |
| Streams.SpliceContents | fileadapter_test.go:32-49 | after a write, the bytes sit at the offset, and every other byte is the old one or a zero |
| Adapters.FileAdapter.Read | fileadapter.go:21-23 | forwards to the handle's `Read` unchanged |
| Adapters.FileAdapter.Seek | fileadapter.go:41-43 | forwards to the handle's `Seek` unchanged |
| Adapters.FileAdapter.Write | fileadapter.go:60-62 | forwards to the handle's `Write` unchanged |
| Adapters.FileAdapter.ReadAt | fileadapter.go:48-57 | the native `ReadAt` or the seek-and-read fallback |
| Adapters.FileAdapter.WriteAt | fileadapter.go:67-76 | the native `WriteAt` or the seek-and-write fallback |
| Adapters.FileAdapter.WriteString | fileadapter.go:80-82 | always `Write`, even when the handle has its own `WriteString` |
| Adapters.FileAdapter.Truncate | fileadapter.go:87-110 | the native `Truncate`, or `size` zero bytes from the start in chunks of 4096 |
| Adapters.AdapterTruncateChunks | fileadapter.go:97-108 | on a handle with room, the fallback writes chunks of 4096 bytes with a shorter last one, `size` bytes in all, with no error |
| Adapters.FileAdapter.Readdirnames | fileadapter.go:116-133 | the native `Readdirnames`, or the names of what `Readdir` lists |
| Adapters.FileAdapter.Close | fileadapter.go:136-138 | unlike `file`, closing the adapter closes the handle |
| Adapters.FileAdapter.Name | fileadapter.go:16-18 | the wrapped handle's name |
| Adapters.FileAdapter.Readdir | fileadapter.go:26-28 | the wrapped handle's `Readdir`: every entry of an open directory, whatever `n` is, and a closed handle or a plain file is refused |
| Adapters.FileAdapter.Sync | fileadapter.go:31-33 | the wrapped handle's `Sync`: refused exactly when it is closed |
| Adapters.FileAdapter.Stat | fileadapter.go:36-38 | the wrapped handle's `Stat`: refused exactly when it is closed, and otherwise its name, size and kind |
| InvalidFiles.InvalidFileRefusesAll | invalidfile.go:18-82 | `Name` is the path and `Close` succeeds. Every other operation reports no progress and returns `EBADF` on the handle's own path, under the operation's name |
| OpenFlags.String | flags.go:30-49 | the access-mode name (none when both access bits are set), then the names of the option flags present, in a fixed order, joined by the bar character |
| OpenFlags.accessTokens | flags.go:32-39 | the access-mode token the printer starts with |
| OpenFlags.ParseFlags | flags.go:60-112 | the token loop and the final switch, token by token |
| OpenFlags.ParseFromNext | flags.go:64-102 | one pass of the loop, case by case: a second access mode and an unknown token are refused, and an option ORs in its flag |
| OpenFlags.ParseSucceedsIff | flags.go:60-112 | parsing succeeds exactly when every token is recognized and at most one access mode is named |
| OpenFlags.ParseFromAccepts | flags.go:64-102 | the same for the loop from any state |
| OpenFlags.ParseValue | flags.go:60-112 | a successful parse yields exactly the options named together with the access mode named, and read-only access when none is |
| OpenFlags.ParseFromValue | flags.go:64-111 | the same for the loop from any state |
| OpenFlags.ParseIgnoresOrderAndRepeats | flags.go:51-59 | inputs naming the same tokens, each with at most one access mode, parse alike: order and repetition do not matter |
| OpenFlags.ParseShowRoundTrip | flags.go:30-112 | printing a value made of one access mode and whole option flags, then parsing the text, gives the value back |
| OpenFlags.OptionValueNoAccess | flags.go:9-23 | no option flag shares a bit with the access-mode mask |
| FileModes.ParseFileMode | filemode.go:11-76 | the length check, the type switch and the permission loop, as written |
| FileModes.ParseModeAccepts | filemode.go:11-76 | accepted exactly when there are at least ten characters, the first is a type letter or `-`, and each later character is `-` or the letter `rwx` has at its position, in either case |
| FileModes.ParseModeValue | filemode.go:11-76 | a parsed mode is the first character's type bits together with one permission bit per letter, all within 0777 |
| FileModes.PermFromMeaning | filemode.go:65-73 | the permission loop succeeds exactly when every position is allowed, and then adds exactly the bits of the letters |
| FileModes.TypeBitsOf | filemode.go:18-46 | a type character selects no bit or exactly the one bit its letter stands for |
| FileModes.ParseModeExample | filemode.go:11-76 | `drwxr-xr-x` parses to a directory with mode 0755 |
| FileModes.ParseRenderRoundTrip | filemode.go:11-76 | rendering a mode with at most one type bit as ten characters, then parsing the text, gives the mode back |
| FileModes.ParseModeLongInputPanics | filemode.go:65-73 | as written, an eleventh character that is not `-` indexes the permission table out of range |
| FileModes.ParseModeGuardedAgrees | filemode.go:65-73 | the guarded parser never panics, and agrees with the source whenever the source does not panic |
| FileModes.PermissionConstants | filemode.go:79-110 | the user, group and other constants are the read, write and execute bits shifted into place, and all of them together are 0777 |
| FileModes.Shl | filemode.go:87-103 | a left shift moves every bit up by `n` and drops those moved past bit 31 |
| FileModes.ToLower | filemode.go:65 | lower-casing keeps the length and maps each character on its own |
| Scenarios.RemoveAllOnAFile | filesystem.go:259-328 | `RemoveAll("/f")` on a plain file without a native `RemoveAll`: as written the file goes and "remove /f: not exist" is returned. The root stays |
| Scenarios.RemoveAllIntendedOnAFile | filesystem.go:259-328 | the corrected `RemoveAll("/f")` removes the file and returns nil. The root stays |
| Scenarios.TruncateToTwo | filesystem.go:330-345 | `Truncate("/f", 2)` on a three-byte file without a native `Truncate` empties it and returns nil |
| Scenarios.TruncateIntendedToTwo | filesystem.go:330-345 | the corrected fallback keeps the first two bytes |
| Scenarios.ChdirRelative | filesystem.go:174-193 | from `/`, `Chdir("d")` on a backend that does not navigate opens `/d` and succeeds, but the working directory becomes the relative `d` |
| Scenarios.ChdirRelativeIntended | filesystem.go:174-193 | the corrected `Chdir("d")` from `/` moves to `/d` |
| Scenarios.SiblingSurvives | filesystem.go:259-315 | whatever the backend and the store, removing `/a` leaves a stored `/b` in place |
| Scenarios.ChdirAndGetwd | filesystem.go:174-200 | `Chdir` to a plain file is refused with "not a directory" and the working directory stays `/`; `Chdir("/")` succeeds, and `Getwd` then reports `/` |

## Left out

- Real I/O, the operating system's filesystem and concurrency are not
  modelled. The backend is the in-memory test backend
  (`filesystem_test.go`); the wrapped handle is the in-memory test handle
  (`fileadapter_test.go:10-86`).
- The backend's directory listings are not updated when a node is created
  or removed, as in the test backend. Listings reach `removeAll` through
  `Readdirnames`, which follows `os.File`: batches, then `io.EOF`.
- The handle model adds two traits of `os.File` that the test handle
  lacks: a closed handle refuses every operation, and writes stop at a size
  limit with `ENOSPC`. They give the wrappers' error paths something to
  react to.
- Backend failures other than a missing or existing node are modelled as
  fault sets: the paths at which `Mkdir`, `Remove`, a handle's `Stat`,
  `Readdirnames` or `Close` fail.
- `os.TempDir()` reads the environment. It is the `hostTempDir` parameter
  of `FileSystems.FS.TempDir`.
- The host is fixed as Linux/amd64: `/` and `:` as separators, Unix
  `filepath` rules, and Linux `O_*` values. Windows volume names and
  backslashes are not modelled.
- `SymLinker` and `SymlinkFileSystem` (filesystem.go:56-84) only declare
  methods, which no core code calls. `ErrNotImplemented` is not used by the
  core.
- `file.go:112-164` declares a second `InvalidFile` that returns
  `os.ErrInvalid`. It clashes by name with `invalidfile.go`'s declaration.
  Only `invalidfile.go`'s version is modelled.
- File info is reduced to name, size and directory bit. `Chmod`, `Chtimes`
  and `Chown` do not change any stored attribute; times are integers.
- Integers are unbounded. The `int64` wrap-around of offsets and sizes is
  not modelled.
- Panics are error values: `Panic` and `IndexOutOfRange`.
- FileSystems.FS.RemoveAll: for a directory, the contract states these
  calls: the first `Readdirnames(512)`, the open that begins each
  recursive removal, and the final close and `Remove`. It also states the
  child paths in order, the stop at the first error, what is gone from
  the store, that the store only shrinks, and that only nodes at or under
  the removed path's node leave it. It does not list the calls
  made inside the recursive removals. It does not list the listing calls
  after the first; `removeNext` states each of them. It does not say
  that no other call falls between those it names. It does not state that
  nodes under a child are removed when the child's listing does not
  name them, because the backend's listings are not kept in step with
  its store.
- Backends.ValidNode: a directory listing holds only plain names, `.`
  and `..`. In Go, a listed empty name makes `removeAll` recurse on
  `Join(path, "")`, which is `path` itself, without end; such listings
  are not modelled.
- Files.ExtendSeekable: the wrapped value is a plain handle, and the
  result is always a new wrapper, as file.go:166-168 is written. The
  test at fileadapter_test.go:335-348 expects an existing `File` to come
  back unchanged; the source has no such case, and neither has the model.
- FileModes.ParseFileMode: the mode string is read one character per
  byte, and `ToLower` folds ASCII letters only. Multi-byte UTF-8 input
  (whose length and indices Go counts in bytes) and Unicode case folding
  are not modelled.
- Backends.Filer.Key: a navigating backend resolves a relative name
  against its own working directory before cleaning it. The test backends
  at filesystem_optional_test.go:26, 69, 87 and 98 only clean the name,
  which leaves a relative key; the model follows what `dirnavigator`
  promises rather than that shortcut.
- Backends.Filer.Stat and Backends.Handle.Stat: the info is named by the
  whole key. The test backend's `Name()` (filesystem_test.go:130) returns
  only its last element; nothing in the core reads the name back.
- Backends.Handle.Stat: the handle reports the node as it was when
  opened, where the test handle (filesystem_test.go:182-184) and
  `os.File` report the file as it is now. The core calls `Stat` only
  right after opening, with no call in between, so the two agree there.
- Streams.StatResult: the test handle's info reports the handle's
  directory bit. The handle at fileadapter_test.go:53-59 never sets it,
  so it always describes a plain file; the model's directory handles need
  the bit for `Readdir`.
- Files.FileWrapper.Truncate and Adapters.FileAdapter.Truncate: the
  fallback's outcome is stated through `ZeroFilled`. On a handle without
  room, only the zeroed prefix and the error are stated, not the chunk
  sizes.

## Findings

| source | as written | input that shows it | evidently intended | confidence | as-written member | corrected member |
|---|---|---|---|---|---|---|
| filesystem.go:288-290 | `removeAll` on a plain file removes it through `fs.Remove`. The deferred block then calls `Remove` again, and that "not exist" error replaces the nil result | `RemoveAll("/f")` where `/f` is a plain file and the backend has no `RemoveAll`: `/f` is gone, but the call reports that `/f` does not exist (`Scenarios.RemoveAllOnAFile`) | remove the file once and report success, as `coverage_boost_test.go:117-135` expects | not executed | FileSystems.FS.RemoveAll | FileSystems.FS.RemoveAllIntended |
| filesystem.go:268-280 | when the body failed, the deferred block closes the handle, closes it again, and returns the `Remove` error or the refused second close. The body's error is lost | `RemoveAll` on a directory whose listing fails: the directory node is removed and the result is the "close: file already closed" error, not the listing error | close once, and return the body's error first | not executed | FileSystems.FS.RemoveAll | FileSystems.FS.RemoveAllIntended |
| filesystem.go:340 | the `Truncate` fallback opens with `O_TRUNC` and never uses `size` | `Truncate("/f", 2)` on a three-byte file leaves it empty (`Scenarios.TruncateToTwo`) | the file becomes exactly `size` bytes | not executed | FileSystems.FS.Truncate | FileSystems.FS.TruncateIntended |
| filesystem.go:190 | on success, the fallback sets the working directory to `Clean(dir)` of the raw `dir`, although it opened the resolved name | from `/`, with a directory `/d` and a backend that does not navigate, `Chdir("d")` succeeds and leaves the working directory `d`, which is relative (`Scenarios.ChdirRelative`); a later relative name then resolves against `d`, not `/d` | move to the directory that was opened, `/d` (`Scenarios.ChdirRelativeIntended`) | not executed | FileSystems.FS.Chdir | FileSystems.FS.ChdirIntended |
| file.go:189-197 | `seekbuffer.Write` copies the bytes in at the offset but does not advance the offset | two one-byte writes `[1]` and `[2]` to an empty buffer leave `[2]` | each write moves the offset past its bytes, as `Read` does, so writes concatenate | not executed | Files.BufferWritesOverlapExample | Files.BufferWritesConcatenate |
| filemode.go:65-73 | the permission loop indexes the nine-entry table by position for every character after the first. A longer string whose eleventh character is not `-` indexes past the table | `ParseFileMode("-rwxrwxrwxx")` panics | refuse the character as misplaced, as other wrong characters are refused | not executed | FileModes.ParseModeLongInputPanics | FileModes.ParseModeGuardedAgrees |
