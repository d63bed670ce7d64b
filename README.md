# bplist_downloader in Dafny

A model of the core of `bplist_downloader`. This command-line program reads a Beat Saber playlist (`.bplist`). It keeps the songs whose hash is not yet present and downloads each one that has a BeatSaver key as `songs/<hash>.zip`. Then it starts the directory `songs_unpacked` afresh, unpacks every remaining song into `songs_unpacked/<hash>`, removes the downloaded archives, and saves the playlist.

The model covers:
- the two download functions of `src/downloader.rs`:
  - `download_async`: a streamed GET with a progress counter, and the chunks buffered and then written;
  - `download`: a HEAD request, then ranged GETs of at most 10240 bytes each, with a status gate that accepts only 200 and 206;
- the directory helpers `create_dir` and `remove_dir`;
- `unpack_zip` and `unpack_songs`;
- `main` in `src/main.rs`.

Everything outside the program's own code is an input of the model:
- every reply of the HTTP client;
- every answer of the operating system;
- the outcome of the ZIP extractor;
- the playlist reader and the list of existing hashes.

Files:

- `base.dfy` (module `Base`): bytes, `u64`, paths, `Option`, and the `Song` and `Playlist` records.
- `http.dfy` (module `Http`):
  - the status gate;
  - the `Range: bytes=<first>-<last>` header value, with a parser proved to invert it (section 14.1.2 of RFC 9110);
  - the reply datatypes.
- `range_plan.dfy` (module `RangePlan`):
  - the windows the loop of `download` requests, and what they cover;
  - the corrected planner (see Findings).
- `file_system.dfy` (module `FileSystem`): a tree of directories and files, and the class `Disk` that holds it and is updated in place.
- `downloader.dfy` (module `Downloader`): each operation of `src/downloader.rs`, written as a method and proved equal to a specification function. The properties the source promises are lemmas about those functions.
- `pipeline.dfy` (module `Pipeline`): the behaviour of `main`:
  - `retain` in place on an array;
  - the download jobs;
  - the download loop;
  - the whole run, as a trace of the calls whose effect matters, together with the final tree.

Three behaviours of the code are kept as they are:
- A failed `fs::read` of an archive is logged with its own message (src/downloader.rs:168). The model gives it its own outcome, `ReadFailed`, distinct from the extractor's I/O error.
- `download_async` writes the buffered chunks and never flushes the file (src/downloader.rs:51-57).
- `download` appends the text of the HEAD response after the ranged bodies (src/downloader.rs:106-110). This looks unintended, and the model keeps it.

## Model

| member | source | states |
|---|---|---|
| Http.IsAcceptedStatus | src/downloader.rs:97-101 | defines the status gate: 200 OK or 206 Partial Content; `Downloader.ReplyError` states its use |
| Http.RangeHeader | src/downloader.rs:80 | the header value of a window starts with the unit prefix `bytes=` |
| Http.ParseRangeHeader | src/downloader.rs:80 | a parsed header value always names a window whose first byte is at most its last |
| Http.RangeHeaderRoundTrip | src/downloader.rs:80 | the header value of every non-empty window parses back to exactly that window |
| Http.ParseDecimalOfDecimal | src/downloader.rs:80 | the decimal rendering of a position reads back as the same number |
| Http.Decimal | src/downloader.rs:80 | a position is rendered as a non-empty string of digits with no leading zero |
| RangePlan.NextStart | src/downloader.rs:77-78 | one turn advances `start` by 1 to CHUNK_SIZE bytes, by exactly CHUNK_SIZE unless it passes `end` |
| RangePlan.WindowsFrom | src/downloader.rs:76-78 | the loop requests a window exactly when `start < end` |
| RangePlan.WindowsFromShape | src/downloader.rs:73-81 | windows start at `start`, lie in `[start, end]`, ask for 1 to CHUNK_SIZE bytes each, and each starts right after the previous one |
| RangePlan.Windows | src/downloader.rs:73-81 | defines the windows of `download` for a length of at least 1, from `start = 0` and `end = length - 1`; `RangePlan.WindowsShape` and `RangePlan.WindowsCoverage` state their properties |
| RangePlan.Requested | src/downloader.rs:80 | defines when a byte lies in one of the requested windows |
| RangePlan.TotalSize | src/downloader.rs:80 | defines the number of bytes the windows ask for |
| RangePlan.WindowsShape | src/downloader.rs:73-81 | the planned windows start at byte 0, stay below `length`, hold 1 to CHUNK_SIZE bytes each, and are contiguous and non-overlapping |
| RangePlan.FinalStart | src/downloader.rs:76-78 | the loop terminates, and it exits at `end` or `end + 1` |
| RangePlan.WindowsFromCover | src/downloader.rs:76-81 | the windows request exactly the bytes from `start` up to where the loop exits |
| RangePlan.TotalSizeFrom | src/downloader.rs:76-81 | the window sizes add up to the distance the loop advanced |
| RangePlan.FinalStartAtBoundary | src/downloader.rs:76-78 | from a chunk boundary, the loop exits at `end` when `end` is a multiple of CHUNK_SIZE, else at `end + 1` |
| RangePlan.LoopExit | src/downloader.rs:73-78 | the loop stops at `length - 1` when `(length - 1) % CHUNK_SIZE == 0`, else at `length` |
| RangePlan.WindowsCoverage | src/downloader.rs:73-81 | a byte is requested iff it is below `length`, except that byte `length - 1` is skipped when `(length - 1) % CHUNK_SIZE == 0` |
| RangePlan.WindowsTotalSize | src/downloader.rs:73-81 | the windows ask for `length` bytes in all, or `length - 1` when the last byte is skipped |
| RangePlan.LastByteRequestedIff | src/downloader.rs:76 | the last byte is requested iff `(length - 1) % CHUNK_SIZE != 0` |
| RangePlan.LastByteMissedExamples | src/downloader.rs:76 | a 1-byte resource gets no request, and a 10241-byte one gets only `0..=10239`, so its last byte is never asked for |
| RangePlan.CoveringWindowsFrom | src/downloader.rs:76 | the corrected loop requests a window exactly when `start < length` |
| RangePlan.CoveringWindows | src/downloader.rs:73-81 | defines the corrected windows from byte 0, for every length including 0; `RangePlan.CoveringWindowsExact` states what they cover |
| RangePlan.CoveringWindowsFromShape | src/downloader.rs:73-81 | the corrected windows keep the shape of the written ones: contiguous, 1 to CHUNK_SIZE bytes, inside the resource |
| RangePlan.CoveringWindowsFromExact | src/downloader.rs:76 | from `start`, the corrected windows request exactly `[start, length)` |
| RangePlan.CoveringWindowsExact | src/downloader.rs:76 | the corrected planner requests exactly the bytes `[0, length)`, for every length |
| RangePlan.CoveringTotalSizeFrom | src/downloader.rs:76 | the corrected windows from `start` add up to `length - start` bytes |
| RangePlan.CoveringTotalSize | src/downloader.rs:76 | the corrected windows add up to exactly `length` bytes |
| RangePlan.WindowsAgreeFrom | src/downloader.rs:76 | away from a chunk boundary, the written guard and the corrected one plan the same windows |
| RangePlan.WindowsAgreeIff | src/downloader.rs:76 | the written and the corrected planner agree iff `(length - 1) % CHUNK_SIZE != 0` |
| FileSystem.Beneath | src/downloader.rs:126 | defines "inside a directory" as a path prefix followed by `/` |
| FileSystem.BeneathTransitive | src/downloader.rs:126 | a path inside a directory inside `d` is inside `d` |
| FileSystem.WellFormed | src/downloader.rs:115-131 | defines a tree whose every directory that contains something exists |
| FileSystem.WithoutSubtree | src/downloader.rs:126 | defines the tree after a successful `fs::remove_dir_all`; `FileSystem.WithoutSubtreeMembers` states its contents |
| FileSystem.WithoutSubtreeMembers | src/downloader.rs:126 | a successful `remove_dir_all(d)` removes `d` and everything beneath it, and keeps every other directory and file with its content |
| FileSystem.Join | src/downloader.rs:136 | `d/name` lies beneath `d` |
| FileSystem.JoinInjective | src/downloader.rs:136 | distinct names give distinct paths inside one directory |
| FileSystem.BeneathJoin | src/downloader.rs:136 | for a name without `/`, the directories above `d/name` are `d` and the directories above `d` |
| FileSystem.Placed | src/downloader.rs:138 | defines the files an extraction writes, each entry at its name inside the target; `FileSystem.PlacedMembers` states where they land |
| FileSystem.PlacedMembers | src/downloader.rs:138 | each extracted entry lands at its name inside the target with its content, and nothing lands outside the target |
| FileSystem.IsEmptyDir | src/downloader.rs:115-131 | defines an existing directory with nothing beneath it |
| FileSystem.Disk.MakeDir | src/downloader.rs:117 | a successful `fs::create_dir` adds the path and changes no file |
| FileSystem.Disk.RemoveAll | src/downloader.rs:126 | a successful `fs::remove_dir_all` leaves the tree without the subtree |
| FileSystem.Disk.PlaceFiles | src/downloader.rs:138 | a successful extraction adds the target directory and the placed entries, and keeps every other file |
| FileSystem.Disk.PutFile | src/downloader.rs:37 | `File::create` and the writes leave exactly the new contents at the path, and change nothing else |
| Downloader.Concat | src/downloader.rs:51-54 | defines the bytes of chunks written one after the other |
| Downloader.ConcatAppend | src/downloader.rs:51-54 | writing two lists of chunks one after the other writes their concatenation |
| Downloader.Received | src/downloader.rs:42-43 | the chunks received are exactly the stream items before the first error, in order |
| Downloader.Progress | src/downloader.rs:45-47 | defines the counter after each chunk: `min(downloaded + len, total)`; `Downloader.ProgressIsClampedLength` states its value |
| Downloader.Positions | src/downloader.rs:48 | one position given to the progress bar per chunk received |
| Downloader.ProgressIsClampedLength | src/downloader.rs:45 | after any chunks, the counter is the number of bytes received capped at the content length |
| Downloader.PositionsMonotoneBounded | src/downloader.rs:38-49 | the counter never decreases from chunk to chunk and never exceeds the content length |
| Downloader.StreamFetch | src/downloader.rs:17-58 | defines the outcome, file and progress of `download_async` for one GET reply; `Downloader.StreamFetchContract` states its properties |
| Downloader.StreamFetchContract | src/downloader.rs:17-58 | a failed send, a missing length or a failed create returns before the file is created, each with its own error; once the file is created a stream error is reported as `StreamError`; success iff no stream error, with the file exactly all received chunks in arrival order, uncut; a stream error leaves the created file empty |
| Downloader.StreamProgressVsFile | src/downloader.rs:45-54 | on success the last shown position is the file length capped at the content length: the cap bounds the counter, not the file |
| Downloader.StreamLongerThanAnnounced | src/downloader.rs:45-54 | a server that announces 1 byte and streams 2 yields a 2-byte file while the counter stops at 1 |
| Downloader.ReceiveStream | src/downloader.rs:42-49 | the loop reports a fault iff a stream error arrives, and returns the received chunks and one counter position per chunk |
| Downloader.WriteChunks | src/downloader.rs:51-54 | the buffered chunks are written in order, concatenated |
| Downloader.DownloadAsync | src/downloader.rs:17-58 | `download_async` computes the outcome, file and progress the specification function describes |
| Downloader.ReplyError | src/downloader.rs:85-103 | a reply lets the loop continue iff it was sent, has status 200 or 206, and its body was copied completely; a refused status is reported with that status |
| Downloader.Appended | src/downloader.rs:97-103 | defines the bytes one reply adds to the file: the body of a response that passed the status gate, nothing otherwise |
| Downloader.ReplyTo | src/downloader.rs:80-95 | the reply to the ranged GET sent with the window's header value |
| Downloader.Bodies | src/downloader.rs:102-103 | the i-th element is the bytes appended for the i-th request |
| Downloader.RangeRun | src/downloader.rs:76-104 | defines the range loop over a list of windows: the error it stops with, the bytes appended, the windows requested; the `Downloader.RangeRun*` lemmas state its properties |
| Downloader.RangedFetch | src/downloader.rs:60-113 | defines the outcome, file and requests of `download`; `Downloader.RangedFetchContract` states its properties |
| Downloader.RangedFetchContract | src/downloader.rs:60-113 | a failed HEAD, a missing length or a failed create returns before the file is created, with `RequestFailed`, `MissingLength` and `FileCreateFailed` respectively; length 0 panics after the create; only planned windows are requested, in plan order |
| Downloader.RangedFetchDone | src/downloader.rs:76-112 | on success every planned window was requested and every reply was accepted, and the file is their bodies in request order followed by the HEAD text |
| Downloader.RangedFetchFailedRequest | src/downloader.rs:77-103 | after a refused ranged request, that request was the last, every earlier one was accepted, the error is its reply's, and the file holds the bodies appended so far |
| Downloader.RangedFetchDoneIff | src/downloader.rs:76-112 | with a length of at least one byte and a created file, `download` returns `Ok` iff every planned window is accepted and the HEAD text is read |
| Downloader.RangedFetchStopsAtFirstRefusal | src/downloader.rs:76-104 | with a length of at least one byte and a created file, the requests are the plan up to and including the first refused window, and the error is that reply's |
| Downloader.RangedFetchTextFailure | src/downloader.rs:106-112 | a failed read of the HEAD text happens only after every planned window was requested and accepted, with the file holding all their bodies; conversely, when every planned window is accepted and the HEAD text cannot be read, the outcome is `HeadTextFailed` |
| Downloader.RangeRunIssuesPrefix | src/downloader.rs:76-104 | the requests are a prefix of the plan, and there is at least one whenever a window is planned |
| Downloader.RangeRunStopsAtFailure | src/downloader.rs:99-103 | every request before the last succeeded, and an error is the error of the last reply: nothing is requested after a failure |
| Downloader.RangeRunCompletes | src/downloader.rs:76-104 | without an error, every planned window is requested and accepted |
| Downloader.RangeRunAppended | src/downloader.rs:102-103 | the file receives the accepted bodies of the requests, in request order |
| Downloader.RangeRunRefusedLast | src/downloader.rs:77-103 | a loop whose last request was refused stopped with that reply's error, after accepting every earlier request, having written their bodies in order |
| Downloader.RangeRunFailsIff | src/downloader.rs:99-103 | the loop fails iff the reply to some planned window fails |
| Downloader.RangedRequest | src/downloader.rs:77-103 | one turn returns the error of its reply, if any, and appends the body only when the status passed the gate |
| Downloader.RangeLoop | src/downloader.rs:73-104 | the loop's error, written bytes and requests are those of the run over the planned windows |
| Downloader.Download | src/downloader.rs:60-113 | `download` computes the outcome, file and requests the specification function describes |
| Downloader.DeliveredLength | src/downloader.rs:102-103 | when each reply carries exactly its window's bytes, the bodies add up to the windows' total size |
| Downloader.RangedFileLength | src/downloader.rs:73-110 | with a server that returns exactly the bytes of every non-empty window, a successful download writes `length` bytes, or `length - 1` at a chunk boundary, before the HEAD text |
| Downloader.CoveredFileLength | src/downloader.rs:76-104 | with such a server, the same loop over the corrected windows writes exactly `length` bytes for every length |
| Downloader.CreateDirEffect | src/downloader.rs:115-122 | defines the tree after `create_dir`: unchanged when the path is a directory or the OS call fails; `Downloader.CreateDirContract` states its properties |
| Downloader.CreateDirContract | src/downloader.rs:115-122 | `create_dir` only ever adds the path, exactly when it is missing and the OS call succeeds; an existing directory is left alone |
| Downloader.CreateDirTwice | src/downloader.rs:115-122 | calling `create_dir` twice equals one call with an OS that succeeds if either attempt would, so the second call is a no-op after a success |
| Downloader.RemoveDirEffect | src/downloader.rs:124-131 | defines the tree after `remove_dir`: the subtree goes only when the path is a directory and the OS call succeeds; `Downloader.RemoveDirContract` states its properties |
| Downloader.RemoveDirContract | src/downloader.rs:124-131 | `remove_dir` is a no-op on a missing directory; otherwise it removes the directory and everything beneath it, and nothing else |
| Downloader.RemoveDirTwice | src/downloader.rs:124-131 | calling `remove_dir` twice equals one call with an OS that succeeds if either attempt would |
| Downloader.RemoveThenCreateEmpty | src/downloader.rs:115-131 | on a well-formed tree, a successful removal followed by a successful creation leaves an empty directory, whether the directory existed before or not |
| Downloader.CreateDirKeepsWellFormed | src/downloader.rs:115-122 | `create_dir` keeps the tree well formed when `fs::create_dir` fails under a missing parent |
| Downloader.RemoveDirKeepsWellFormed | src/downloader.rs:124-131 | `remove_dir` keeps the tree well formed |
| Downloader.CreateDir | src/downloader.rs:115-122 | the disk afterwards is the effect of `create_dir` on the disk before |
| Downloader.RemoveDir | src/downloader.rs:124-131 | the disk afterwards is the effect of `remove_dir` on the disk before |
| Downloader.ArchivePath | src/downloader.rs:175 | an archive lies beneath `songs` and not beneath `songs_unpacked` |
| Downloader.ArchiveHash | src/downloader.rs:175 | reads the song hash back from an archive path |
| Downloader.ArchivePathRoundTrip | src/downloader.rs:175 | an archive path names exactly its song's hash, so distinct hashes never share an archive |
| Downloader.TargetDir | src/downloader.rs:136 | a target lies beneath `songs_unpacked` and not beneath `songs` |
| Downloader.UnpackZipReport | src/downloader.rs:133-170 | the report records the archive read and the target `songs_unpacked/<name>`; a missing archive is never given to the extractor; success iff the extraction succeeds; `Io` and `Zip` failures iff the extractor returns that error; a `StripToplevel` failure iff the extractor returns one, and its line names the path carried by the error (which shadows the archive path), not the archive |
| Downloader.UnpackZipEffect | src/downloader.rs:133-170 | defines the tree after `unpack_zip`: a successful extraction adds the target directory and its files, otherwise nothing changes; `Downloader.UnpackZipKeepsOutside` and `Downloader.UnpackZipPlacesEntries` state its properties |
| Downloader.UnpackZipKeepsOutside | src/downloader.rs:133-170 | unpacking changes nothing outside the target directory |
| Downloader.UnpackZipPlacesEntries | src/downloader.rs:138 | after a successful unpack, every entry of the archive is in the target directory with its content |
| Downloader.TargetAncestor | src/downloader.rs:136 | for a song name without `/`, the only directory above the target is `songs_unpacked` |
| Downloader.PlacedAncestor | src/downloader.rs:136-138 | for names without `/`, the directories above an extracted file are the target and `songs_unpacked` |
| Downloader.UnpackZipKeepsWellFormed | src/downloader.rs:133-170 | with `songs_unpacked` present and names without `/`, unpacking keeps the tree well formed |
| Downloader.UnpackZip | src/downloader.rs:133-170 | the report and the new disk are those of the specification functions |
| Downloader.UnpackAll | src/downloader.rs:172-177 | defines `unpack_songs`: for each song in order, `create_dir(songs_unpacked)` then `unpack_zip`; `Downloader.UnpackAllReports` states its properties |
| Downloader.UnpackStepKeepsArchives | src/downloader.rs:173-176 | unpacking one song keeps every downloaded archive |
| Downloader.UnpackAllKeepsArchives | src/downloader.rs:172-177 | `unpack_songs` never touches a downloaded archive |
| Downloader.ReportOfSameArchives | src/downloader.rs:133-170 | the outcome of `unpack_zip` depends only on the archive |
| Downloader.UnpackAllReports | src/downloader.rs:172-177 | one report per song, in order, each about that song's archive and target and decided by the archive as it was before the call, whatever the other songs did |
| Downloader.UnpackAllKeepsDirs | src/downloader.rs:172-177 | unpacking removes no directory |
| Downloader.UnpackSongs | src/downloader.rs:172-177 | the reports and the new disk are those of unpacking each song in order |
| Pipeline.Pending | src/main.rs:26 | defines the songs `retain` keeps, in playlist order; the `Pipeline.Pending*` lemmas state its properties |
| Pipeline.PendingStep | src/main.rs:26 | filtering one more song adds it at the end exactly when its hash is new |
| Pipeline.PendingMembers | src/main.rs:26 | a song is kept iff it is in the playlist and its hash is not among the existing ones |
| Pipeline.PendingAppend | src/main.rs:26 | the filter distributes over concatenation, so kept songs keep their relative order |
| Pipeline.PendingLength | src/main.rs:26 | never more songs than the playlist, and all of them when no hash exists yet |
| Pipeline.PendingIdempotent | src/main.rs:26 | filtering twice keeps the same songs as filtering once |
| Pipeline.Retain | src/main.rs:26 | the in-place `retain` leaves exactly the pending songs, in order, at the front of the array |
| Pipeline.RetainedSongs | src/main.rs:20-26 | the collected and retained vector holds exactly the pending songs, in order |
| Pipeline.JobFor | src/main.rs:34-43 | defines the job of a keyed song: URL `https://api.beatsaver.com/download/key/<key>`, path `songs/<hash>.zip`; `Pipeline.JobRoundTrip` states its properties |
| Pipeline.Keyed | src/main.rs:33 | every song that passes the filter has a key |
| Pipeline.Jobs | src/main.rs:31-43 | defines the jobs of the download loop, in order; `Pipeline.JobsAreMappedKeyed` states them |
| Pipeline.JobsAreMappedKeyed | src/main.rs:31-43 | the jobs are the keyed songs in order, each mapped through the URL and path formats |
| Pipeline.KeyedCount | src/main.rs:33 | there are never more jobs than songs, and as many only when every song has a key |
| Pipeline.KeyedMembers | src/main.rs:33 | a song gets a job iff it has a key |
| Pipeline.UrlKey | src/main.rs:37-40 | reads the key back from a download URL |
| Pipeline.JobRoundTrip | src/main.rs:37-41 | each job's URL names its song's key after the BeatSaver prefix, and its path is that song's archive in `songs` |
| Pipeline.WithFile | src/main.rs:41-47 | defines the tree after one download: the archive holds the file's final contents when the file was created |
| Pipeline.FetchJob | src/main.rs:35-47 | defines one `download_async` of a job; `File::create` succeeds when `songs` exists |
| Pipeline.FetchJobKeepsWellFormed | src/main.rs:35-47 | a download of a song whose hash has no `/` keeps the tree well formed |
| Pipeline.FetchAll | src/main.rs:31-51 | one step per job |
| Pipeline.FetchAllDirs | src/main.rs:31-51 | the download loop creates and removes no directory |
| Pipeline.FetchAllSteps | src/main.rs:44-50 | the i-th step is job i shown as `i + 1` of `of`, with the outcome it has on the starting tree, whatever the earlier jobs did |
| Pipeline.FetchAllKeepsOthers | src/main.rs:31-51 | the loop writes only the jobs' files |
| Pipeline.FetchAllLastWriter | src/main.rs:31-51 | a successful job that is the last to write its path leaves there exactly the chunks streamed |
| Pipeline.FetchJobOn | src/main.rs:47-50 | one awaited download has the outcome and file effect of `download_async`, and an error is only reported |
| Pipeline.FetchLoop | src/main.rs:31-51 | the loop's steps and new disk are those of the specification function |
| Pipeline.AfterDownloads | src/main.rs:53-61 | defines the steps after the download loop: remove `songs_unpacked`, unpack, remove `songs`, save |
| Pipeline.RunPlaylist | src/main.rs:20-61 | defines the run once the playlist is read; `Pipeline.RunOrder` and the `Pipeline.Run*` lemmas state its properties |
| Pipeline.RunSpec | src/main.rs:12-71 | defines `main`; `Pipeline.RunWithoutPlaylist` states the case without a playlist |
| Pipeline.RunWithoutPlaylist | src/main.rs:15-19 | without a first argument, or with an unreadable playlist, nothing changes and nothing is done |
| Pipeline.RunOrder | src/main.rs:29-61 | create `songs`, then the downloads, then remove `songs_unpacked`, unpack, remove `songs`, save the playlist |
| Pipeline.RunPlaylistSteps | src/main.rs:29-61 | the trace is the directory creation, the download steps, then the four final steps |
| Pipeline.RunDownloads | src/main.rs:31-51 | the downloads are the keyed pending songs in order, shown as `i + 1` of the number of pending songs (keyless ones included) |
| Pipeline.RunUnpacksDownloads | src/main.rs:53-54 | the unpack step covers every pending song, keyless ones included, in order, and reads the archives as the download loop left them |
| Pipeline.RemoveUnpackedKeepsArchives | src/main.rs:53 | removing `songs_unpacked` never touches a downloaded archive |
| Pipeline.RunRemovesDownloads | src/main.rs:55 | when `songs` existed and its removal succeeds, the run ends with no `songs` directory and no archive |
| Pipeline.RunKeepsUnpacked | src/main.rs:55 | removing `songs` keeps every unpacked file as the unpacking left it |
| Pipeline.RunPlaylistOn | src/main.rs:20-61 | the steps after reading the playlist give the trace and disk of the specification function |
| Pipeline.Run | src/main.rs:12-71 | `main` gives the trace and disk of the specification function |

## Left out

- Printed text (`println!`, progress-bar rendering and styles) is not modelled. Only the counter values given to the progress bar, and the position and denominator of the download line, are kept.
- `ProgressBar` template and `HeaderValue::from_str` errors are not modelled: with the constant template and a header of digits, neither can fail.
- Async execution with tokio and `StreamExt`: each future is awaited before the next, so the model is sequential, and a stream is a finite sequence of items.
- Disk write failures (`write_all`, `io::copy` into the file) are not modelled: writes always succeed. The one write error of `download` that is modelled is an incomplete copy of a ranged body, as `complete == false` on the reply.
- Downloader.Progress: does not model the `u64` overflow of `downloaded + chunk.len()`. Byte counts are unbounded integers, because a body of 2^64 bytes cannot arrive.
- Downloader.RangedFetch: `length == 0` is modelled as the outcome `Panicked` (the overflow of `length - 1` in a debug build) after the file is created. A release build would wrap around instead, and that is not modelled.
- The ZIP format and `zip_extract` are not modelled. Extraction is an input that returns the files it writes, or one of the three errors. Intermediate directories of entries, and the files a failed extraction leaves behind, are not modelled.
- Paths are compared as strings and are never resolved. The model assumes that the extractor has already sanitised entry names, with no `..` and no absolute names. In the program the ZIP library does this. `Downloader.UnpackZipKeepsOutside`, `Downloader.UnpackAllKeepsArchives`, `Downloader.UnpackAllReports` and `Pipeline.RunUnpacksDownloads` rely on that assumption.
- The extractor's answer depends only on the archive bytes and the target path, not on the rest of the disk (for example, whether `songs_unpacked` exists).
- Well-formedness of the tree (`FileSystem.WellFormed`) is proved to hold across `create_dir`, `remove_dir`, one `unpack_zip` and one download. For the last two, the song hash and the entry names must be free of `/`, because intermediate directories are not modelled. It is not carried as an invariant through the whole run.
- Downloader.CreateDirEffect: the OS answer `osOk` is not tied to the tree. A succeeding `fs::create_dir` on a path that is already a file would make that path both a file and a directory, and `FileSystem.WellFormed` does not rule that out. In the program `fs::create_dir` fails there with `AlreadyExists`, so such an answer never happens.
- `fs::remove_dir_all` and `fs::create_dir` either succeed completely or change nothing. A partial removal is not modelled.
- `fs::read` of an archive fails exactly when the file is missing from the tree. Permission and I/O errors are not modelled.
- In `main`, `File::create` of an archive succeeds exactly when the directory `songs` exists. A hash that is not a valid file name is not modelled.
- The operating system's answer to a directory call is fixed per path for the whole run.
- `read_bplist`, `get_existing_song_hashes` and `save_playlist` come from the playlist library and are inputs or recorded steps. So is the time stamp in the saved file's name. That library is not part of this model.

## Findings

| source | as written | input that shows it | evidently intended | confidence | as-written member | corrected member |
|---|---|---|---|---|---|---|
| src/downloader.rs:76 | the loop runs `while start < end` with `end = length - 1`, so it stops with `start == end` when `end` is a multiple of 10240 | content length 1 (no request at all) or 10241 (only `bytes=0-10239`); the last byte is never requested | every byte of `[0, length)` is requested (guard `start <= end`) | not executed | RangePlan.LastByteMissedExamples, RangePlan.LastByteRequestedIff | RangePlan.CoveringWindowsExact, Downloader.CoveredFileLength |

`Downloader.Download` keeps the guard as written, because it models the program. The corrected planner `RangePlan.CoveringWindows` runs through the same range loop, `Downloader.RangeRun`, where `Downloader.CoveredFileLength` proves that it delivers the whole resource.
