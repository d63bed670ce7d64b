/** The run of the program (`main`, src/main.rs:12-71): read the playlist
    named by the first argument, drop the songs already present, download
    the archives of the songs that have a key, then start the unpack
    directory afresh, unpack every remaining song, remove the downloaded
    archives and save the playlist.

    The command line, the playlist reader, the list of hashes already
    present, the server, the extractor and the operating system's answers
    are inputs; what `main` prints is left out, and the calls whose effect
    matters are recorded, in order, as a trace of steps. */
module Pipeline {
  import opened Base
  import opened Http
  import opened FileSystem
  import opened Downloader

  // =====================================================================
  // Song selection (src/main.rs:20-26)
  // =====================================================================

  /** The songs still to download: those whose hash is not among the
      existing ones, in playlist order. */
  function Pending(songs: seq<Song>, existing: seq<string>): seq<Song>
  {
    if songs == [] then []
    else
      var last := songs[|songs| - 1];
      Pending(songs[..|songs| - 1], existing) + (if last.hash in existing then [] else [last])
  }

  /** A song is kept exactly when its hash is not an existing one. */
  lemma {:induction false} PendingMembers(songs: seq<Song>, existing: seq<string>, s: Song)
    ensures s in Pending(songs, existing) <==> s in songs && s.hash !in existing
  {
    if songs != [] {
      var init := songs[..|songs| - 1];
      assert songs == init + [songs[|songs| - 1]];
      PendingMembers(init, existing, s);
    }
  }

  /** Filtering distributes over concatenation, so the kept songs keep
      their relative order. */
  lemma {:induction false} PendingAppend(a: seq<Song>, b: seq<Song>, existing: seq<string>)
    ensures Pending(a + b, existing) == Pending(a, existing) + Pending(b, existing)
    decreases |b|
  {
    if b == [] {
      assert a + b == a;
    } else {
      var init := b[..|b| - 1];
      assert (a + b)[..|a + b| - 1] == a + init;
      assert (a + b)[|a + b| - 1] == b[|b| - 1];
      PendingAppend(a, init, existing);
    }
  }

  /** The kept songs are never more than the playlist's, and all of them
      when no hash exists yet. */
  lemma {:induction false} PendingLength(songs: seq<Song>, existing: seq<string>)
    ensures |Pending(songs, existing)| <= |songs|
    ensures (forall i :: 0 <= i < |songs| ==> songs[i].hash !in existing) ==> Pending(songs, existing) == songs
  {
    if songs != [] {
      var init := songs[..|songs| - 1];
      PendingLength(init, existing);
      assert forall i :: 0 <= i < |init| ==> init[i] == songs[i];
      assert songs == init + [songs[|songs| - 1]];
    }
  }

  /** Filtering twice keeps the same songs as filtering once. */
  lemma {:induction false} PendingIdempotent(songs: seq<Song>, existing: seq<string>)
    ensures Pending(Pending(songs, existing), existing) == Pending(songs, existing)
  {
    if songs != [] {
      var init, last := songs[..|songs| - 1], songs[|songs| - 1];
      PendingIdempotent(init, existing);
      var tail := if last.hash in existing then [] else [last];
      PendingAppend(Pending(init, existing), tail, existing);
      if tail != [] {
        assert tail[..|tail| - 1] == [];
      }
    }
  }

  /** Filtering one more song of the playlist adds it at the end when its
      hash is new. */
  lemma PendingStep(songs: seq<Song>, r: nat, existing: seq<string>)
    requires r < |songs|
    ensures Pending(songs[..r + 1], existing) ==
              Pending(songs[..r], existing) + (if songs[r].hash in existing then [] else [songs[r]])
  {
    assert songs[..r + 1][..r] == songs[..r];
  }

  /** `songs.retain(|song| !existing_hashes.contains(&song.hash))`
      (src/main.rs:26): filters the vector in place and returns its new
      length. */
  method Retain(a: array<Song>, existing: seq<string>) returns (n: nat)
    modifies a
    ensures n <= a.Length
    ensures a[..n] == Pending(old(a[..]), existing)
  {
    ghost var songs := a[..];
    n := 0;
    var r := 0;
    while r < a.Length
      invariant n <= r <= a.Length
      invariant a[..n] == Pending(songs[..r], existing)
      invariant a[r..] == songs[r..]
    {
      var song := a[r];
      PendingStep(songs, r, existing);
      ghost var kept, rest := a[..n], a[r + 1..];
      assert rest == songs[r + 1..] by {
        assert a[r..][1..] == rest && songs[r..][1..] == songs[r + 1..];
      }
      if song.hash !in existing {
        a[n] := song;
        assert a[..n + 1] == kept + [song];
        n := n + 1;
      }
      assert a[r + 1..] == rest;
      r := r + 1;
    }
    assert songs[..a.Length] == songs;
  }

  // =====================================================================
  // Download jobs (src/main.rs:31-43)
  // =====================================================================

  const KEY_URL_PREFIX: string := "https://api.beatsaver.com/download/key/"

  /** One `download_async` call: the URL fetched and the file written. */
  datatype Job = Job(url: string, path: Path)

  /** The job built for a song that has a key. */
  function JobFor(song: Song): Job
    requires song.key.Some?
  {
    Job(KEY_URL_PREFIX + song.key.value, ArchivePath(song.hash))
  }

  /** The songs that have a key, in order. */
  function Keyed(songs: seq<Song>): (k: seq<Song>)
    ensures forall i :: 0 <= i < |k| ==> k[i].key.Some?
  {
    if songs == [] then []
    else
      var last := songs[|songs| - 1];
      Keyed(songs[..|songs| - 1]) + (if last.key.Some? then [last] else [])
  }

  /** The jobs of the download loop, in the order they run: the key
      filter and the job construction done one song at a time. */
  function Jobs(songs: seq<Song>): seq<Job>
  {
    if songs == [] then []
    else
      var last := songs[|songs| - 1];
      Jobs(songs[..|songs| - 1]) + (if last.key.Some? then [JobFor(last)] else [])
  }

  /** The jobs are the keyed songs, filtered first and then mapped through
      `JobFor`, as the iterator chain of `main` does it. */
  lemma {:induction false} JobsAreMappedKeyed(songs: seq<Song>)
    ensures |Jobs(songs)| == |Keyed(songs)|
    ensures forall i :: 0 <= i < |Jobs(songs)| ==> Jobs(songs)[i] == JobFor(Keyed(songs)[i])
  {
    if songs != [] {
      JobsAreMappedKeyed(songs[..|songs| - 1]);
    }
  }

  /** There are never more jobs than songs, and as many only when every
      song has a key. */
  lemma {:induction false} KeyedCount(songs: seq<Song>)
    ensures |Keyed(songs)| <= |songs|
    ensures |Keyed(songs)| == |songs| <==> forall i :: 0 <= i < |songs| ==> songs[i].key.Some?
  {
    if songs != [] {
      var init, last := songs[..|songs| - 1], songs[|songs| - 1];
      KeyedCount(init);
      assert Keyed(songs) == Keyed(init) + (if last.key.Some? then [last] else []);
      assert forall i :: 0 <= i < |init| ==> songs[i] == init[i];
    }
  }

  /** A song gets a job exactly when it has a key. */
  lemma {:induction false} KeyedMembers(songs: seq<Song>, s: Song)
    ensures s in Keyed(songs) <==> s in songs && s.key.Some?
  {
    if songs != [] {
      var init, last := songs[..|songs| - 1], songs[|songs| - 1];
      KeyedMembers(init, s);
      assert songs == init + [last];
    }
  }

  /** The key a download URL names, if it is one. */
  function UrlKey(url: string): Option<string>
  {
    if |url| >= |KEY_URL_PREFIX| && url[..|KEY_URL_PREFIX|] == KEY_URL_PREFIX
    then Some(url[|KEY_URL_PREFIX|..])
    else None
  }

  /** Every job downloads its song's key into its song's archive, and the
      song can be read back from the job. */
  lemma JobRoundTrip(song: Song)
    requires song.key.Some?
    ensures UrlKey(JobFor(song).url) == song.key
    ensures ArchiveHash(JobFor(song).path) == Some(song.hash)
    ensures Beneath(JobFor(song).path, DOWNLOADED_PATH)
  {
    var url := JobFor(song).url;
    assert url[..|KEY_URL_PREFIX|] == KEY_URL_PREFIX && url[|KEY_URL_PREFIX|..] == song.key.value;
    ArchivePathRoundTrip(song.hash, JobFor(song).path);
  }

  // =====================================================================
  // The download loop (src/main.rs:31-51)
  // =====================================================================

  /** The calls of a run whose effect matters, in order. */
  datatype Step =
    | MakeDirStep(path: Path)
    | DownloadStep(position: nat, of: nat, job: Job, outcome: Outcome)
    | RemoveDirStep(path: Path)
    | UnpackStep(reports: seq<UnpackReport>)
    | SaveStep(playlist: Playlist)

  /** The tree after one `download_async` whose destination file ends as
      `file`. */
  function WithFile(t: Tree, path: Path, file: FileState): Tree
  {
    match file
    case Untouched => t
    case Created(contents) => Tree(t.dirs, t.files[path := contents])
  }

  /** One `download_async(job)` against the tree `t`: `File::create` of the
      archive succeeds when the download directory exists. */
  function FetchJob(t: Tree, job: Job, server: string -> GetReply): StreamRecord
  {
    StreamFetch(server(job.url), DOWNLOADED_PATH in t.dirs)
  }

  /** A download writes its archive only when `songs` exists, so for a hash
      without `/` it keeps the tree well formed. */
  lemma FetchJobKeepsWellFormed(t: Tree, song: Song, server: string -> GetReply)
    requires WellFormed(t) && song.key.Some? && '/' !in song.hash
    ensures var job := JobFor(song);
            WellFormed(WithFile(t, job.path, FetchJob(t, job, server).file))
  {
    var job := JobFor(song);
    var rec := FetchJob(t, job, server);
    if rec.file.Created? {
      assert DOWNLOADED_PATH in t.dirs;
      var r := WithFile(t, job.path, rec.file);
      assert job.path == Join(DOWNLOADED_PATH, song.hash + ".zip");
      assert '/' !in song.hash + ".zip";
      forall p, d | (p in r.dirs || p in r.files) && Beneath(p, d) ensures d in r.dirs {
        if p == job.path {
          BeneathJoin(DOWNLOADED_PATH, song.hash + ".zip", d);
          assert !Beneath(DOWNLOADED_PATH, d);
        }
      }
    }
  }

  datatype FetchRun = FetchRun(tree: Tree, steps: seq<Step>)

  /** The download loop over `jobs`, with `of` the length the progress line
      divides by. */
  function FetchAll(t: Tree, jobs: seq<Job>, server: string -> GetReply, of: nat): (r: FetchRun)
    ensures |r.steps| == |jobs|
  {
    if jobs == [] then FetchRun(t, [])
    else
      var before := FetchAll(t, jobs[..|jobs| - 1], server, of);
      var job := jobs[|jobs| - 1];
      var rec := FetchJob(before.tree, job, server);
      FetchRun(WithFile(before.tree, job.path, rec.file),
               before.steps + [DownloadStep(|jobs|, of, job, rec.outcome)])
  }

  /** The download loop creates and removes no directory. */
  lemma {:induction false} FetchAllDirs(t: Tree, jobs: seq<Job>, server: string -> GetReply, of: nat)
    ensures FetchAll(t, jobs, server, of).tree.dirs == t.dirs
  {
    if jobs != [] {
      FetchAllDirs(t, jobs[..|jobs| - 1], server, of);
    }
  }

  /** Every job runs, in order, whatever the earlier ones did: the i-th
      step is job i shown as `i + 1` of `of`, with the outcome it has on
      the starting tree. */
  lemma {:induction false} FetchAllSteps(t: Tree, jobs: seq<Job>, server: string -> GetReply, of: nat)
    ensures |FetchAll(t, jobs, server, of).steps| == |jobs|
    ensures forall i :: 0 <= i < |jobs| ==>
              FetchAll(t, jobs, server, of).steps[i] ==
                DownloadStep(i + 1, of, jobs[i], FetchJob(t, jobs[i], server).outcome)
  {
    if jobs != [] {
      var init := jobs[..|jobs| - 1];
      FetchAllSteps(t, init, server, of);
      FetchAllDirs(t, init, server, of);
      var before := FetchAll(t, init, server, of);
      assert FetchJob(before.tree, jobs[|jobs| - 1], server) == FetchJob(t, jobs[|jobs| - 1], server);
      assert forall i :: 0 <= i < |init| ==> init[i] == jobs[i];
    }
  }

  /** The download loop writes only the jobs' files. */
  lemma {:induction false} FetchAllKeepsOthers(t: Tree, jobs: seq<Job>, server: string -> GetReply, of: nat, p: Path)
    requires forall i :: 0 <= i < |jobs| ==> jobs[i].path != p
    ensures p in FetchAll(t, jobs, server, of).tree.files <==> p in t.files
    ensures p in t.files ==> FetchAll(t, jobs, server, of).tree.files[p] == t.files[p]
  {
    if jobs != [] {
      var init := jobs[..|jobs| - 1];
      assert forall i :: 0 <= i < |init| ==> init[i] == jobs[i];
      FetchAllKeepsOthers(t, init, server, of, p);
    }
  }

  /** A job that succeeds and is the last to write its path leaves there
      exactly the chunks the server streamed. */
  lemma {:induction false} FetchAllLastWriter(t: Tree, jobs: seq<Job>, server: string -> GetReply, of: nat, i: nat)
    requires i < |jobs|
    requires FetchJob(t, jobs[i], server).outcome == Done
    requires forall j :: i < j < |jobs| ==> jobs[j].path != jobs[i].path
    ensures jobs[i].path in FetchAll(t, jobs, server, of).tree.files
    ensures FetchAll(t, jobs, server, of).tree.files[jobs[i].path] ==
              Concat(Received(server(jobs[i].url).stream))
  {
    var init := jobs[..|jobs| - 1];
    FetchAllDirs(t, init, server, of);
    var before := FetchAll(t, init, server, of);
    assert FetchJob(before.tree, jobs[|jobs| - 1], server) == FetchJob(t, jobs[|jobs| - 1], server);
    StreamFetchContract(server(jobs[i].url), DOWNLOADED_PATH in t.dirs);
    if i < |jobs| - 1 {
      assert init[i] == jobs[i];
      FetchAllLastWriter(t, init, server, of, i);
    }
  }

  /** `download_async(job)` awaited against the disk (src/main.rs:47-50):
      an error is only printed. */
  method FetchJobOn(fs: Disk, job: Job, server: string -> GetReply) returns (outcome: Outcome)
    modifies fs
    ensures outcome == FetchJob(old(fs.State()), job, server).outcome
    ensures fs.State() == WithFile(old(fs.State()), job.path, FetchJob(old(fs.State()), job, server).file)
  {
    var file, progress;
    outcome, file, progress := DownloadAsync(server(job.url), fs.IsDir(DOWNLOADED_PATH));
    if file.Created? {
      fs.PutFile(job.path, file.contents);
    }
  }

  /** The download loop of `main` (src/main.rs:31-51). */
  method FetchLoop(fs: Disk, jobs: seq<Job>, server: string -> GetReply, of: nat) returns (steps: seq<Step>)
    modifies fs
    ensures FetchRun(fs.State(), steps) == FetchAll(old(fs.State()), jobs, server, of)
  {
    steps := [];
    ghost var t := fs.State();
    for index := 0 to |jobs|
      invariant FetchRun(fs.State(), steps) == FetchAll(t, jobs[..index], server, of)
    {
      assert jobs[..index + 1][..index] == jobs[..index];
      var outcome := FetchJobOn(fs, jobs[index], server);
      steps := steps + [DownloadStep(index + 1, of, jobs[index], outcome)];
    }
    assert jobs[..|jobs|] == jobs;
  }

  // =====================================================================
  // The whole run (src/main.rs:12-71)
  // =====================================================================

  /** The outcome of `main` on a tree: the final tree and the trace. */
  datatype RunRecord = RunRecord(tree: Tree, trace: seq<Step>)

  /** The steps after the download loop (src/main.rs:53-61), from the tree
      the loop leaves. */
  function AfterDownloads(t: Tree, songs: seq<Song>, playlist: Playlist,
                          extract: (Bytes, Path) -> ExtractResult,
                          mkdirOk: Path -> bool, rmdirOk: Path -> bool): RunRecord
  {
    var t1 := RemoveDirEffect(t, UNPACKED_PATH, rmdirOk(UNPACKED_PATH));
    var unpacked := UnpackAll(t1, songs, extract, mkdirOk(UNPACKED_PATH));
    var t2 := RemoveDirEffect(unpacked.tree, DOWNLOADED_PATH, rmdirOk(DOWNLOADED_PATH));
    RunRecord(t2, [RemoveDirStep(UNPACKED_PATH), UnpackStep(unpacked.reports),
                   RemoveDirStep(DOWNLOADED_PATH), SaveStep(playlist)])
  }

  /** `main`'s run once the playlist is read: the songs after `retain`,
      and every step after it. */
  function RunPlaylist(t: Tree, playlist: Playlist, existing: seq<string>, server: string -> GetReply,
                       extract: (Bytes, Path) -> ExtractResult,
                       mkdirOk: Path -> bool, rmdirOk: Path -> bool): RunRecord
  {
    var songs := Pending(playlist.songs, existing);
    var t1 := CreateDirEffect(t, DOWNLOADED_PATH, mkdirOk(DOWNLOADED_PATH));
    var fetched := FetchAll(t1, Jobs(songs), server, |songs|);
    var rest := AfterDownloads(fetched.tree, songs, playlist, extract, mkdirOk, rmdirOk);
    RunRecord(rest.tree, [MakeDirStep(DOWNLOADED_PATH)] + fetched.steps + rest.trace)
  }

  /** `main`: nothing happens without a first argument or a readable
      playlist. */
  function RunSpec(args: seq<string>, readBplist: string -> Option<Playlist>, existing: seq<string>,
                   server: string -> GetReply, extract: (Bytes, Path) -> ExtractResult,
                   mkdirOk: Path -> bool, rmdirOk: Path -> bool, t: Tree): RunRecord
  {
    if |args| < 2 then RunRecord(t, [])
    else match readBplist(args[1])
      case None => RunRecord(t, [])
      case Some(playlist) => RunPlaylist(t, playlist, existing, server, extract, mkdirOk, rmdirOk)
  }

  /** Without a first argument, or when the playlist cannot be read, `main`
      creates no directory, downloads nothing and changes nothing. */
  lemma RunWithoutPlaylist(args: seq<string>, readBplist: string -> Option<Playlist>, existing: seq<string>,
                           server: string -> GetReply, extract: (Bytes, Path) -> ExtractResult,
                           mkdirOk: Path -> bool, rmdirOk: Path -> bool, t: Tree)
    requires |args| < 2 || readBplist(args[1]).None?
    ensures RunSpec(args, readBplist, existing, server, extract, mkdirOk, rmdirOk, t) == RunRecord(t, [])
  {
  }

  /** The order of a run with a readable playlist: the download directory
      is created, then come the downloads, then the unpack directory is
      removed, the pending songs are unpacked, the download directory is
      removed, and the playlist is saved. */
  lemma RunOrder(t: Tree, playlist: Playlist, existing: seq<string>, server: string -> GetReply,
                 extract: (Bytes, Path) -> ExtractResult, mkdirOk: Path -> bool, rmdirOk: Path -> bool)
    ensures var k := |Jobs(Pending(playlist.songs, existing))|;
            var trace := RunPlaylist(t, playlist, existing, server, extract, mkdirOk, rmdirOk).trace;
            && |trace| == k + 5
            && trace[0] == MakeDirStep(DOWNLOADED_PATH)
            && (forall i :: 1 <= i <= k ==> trace[i].DownloadStep?)
            && trace[k + 1] == RemoveDirStep(UNPACKED_PATH)
            && trace[k + 2].UnpackStep?
            && trace[k + 3] == RemoveDirStep(DOWNLOADED_PATH)
            && trace[k + 4] == SaveStep(playlist)
  {
    var songs := Pending(playlist.songs, existing);
    var t1 := CreateDirEffect(t, DOWNLOADED_PATH, mkdirOk(DOWNLOADED_PATH));
    FetchAllSteps(t1, Jobs(songs), server, |songs|);
  }

  /** The trace of a run is the directory creation, the download steps,
      and the steps after the downloads. */
  lemma RunPlaylistSteps(t: Tree, playlist: Playlist, existing: seq<string>, server: string -> GetReply,
                         extract: (Bytes, Path) -> ExtractResult, mkdirOk: Path -> bool, rmdirOk: Path -> bool)
    ensures var songs := Pending(playlist.songs, existing);
            var t1 := CreateDirEffect(t, DOWNLOADED_PATH, mkdirOk(DOWNLOADED_PATH));
            var steps := FetchAll(t1, Jobs(songs), server, |songs|).steps;
            var trace := RunPlaylist(t, playlist, existing, server, extract, mkdirOk, rmdirOk).trace;
            |trace| == |steps| + 5 && trace[1..|steps| + 1] == steps
  {
    var songs := Pending(playlist.songs, existing);
    var t1 := CreateDirEffect(t, DOWNLOADED_PATH, mkdirOk(DOWNLOADED_PATH));
    var fetched := FetchAll(t1, Jobs(songs), server, |songs|);
    var rest := AfterDownloads(fetched.tree, songs, playlist, extract, mkdirOk, rmdirOk).trace;
    var trace := [MakeDirStep(DOWNLOADED_PATH)] + fetched.steps + rest;
    assert trace[1..|fetched.steps| + 1] == fetched.steps;
  }

  /** The downloads of a run: every keyed song still pending, in order,
      shown as `i + 1` of the number of pending songs (keyless ones
      included), each with the outcome it has on the tree the loop starts
      from, whatever the earlier downloads did. */
  lemma RunDownloads(t: Tree, playlist: Playlist, existing: seq<string>, server: string -> GetReply,
                     extract: (Bytes, Path) -> ExtractResult, mkdirOk: Path -> bool, rmdirOk: Path -> bool)
    ensures var songs := Pending(playlist.songs, existing);
            var jobs := Jobs(songs);
            var t1 := CreateDirEffect(t, DOWNLOADED_PATH, mkdirOk(DOWNLOADED_PATH));
            var trace := RunPlaylist(t, playlist, existing, server, extract, mkdirOk, rmdirOk).trace;
            && |trace| == |jobs| + 5
            && (forall i :: 0 <= i < |jobs| ==>
                  trace[1 + i] == DownloadStep(i + 1, |songs|, jobs[i], FetchJob(t1, jobs[i], server).outcome))
  {
    var songs := Pending(playlist.songs, existing);
    var jobs := Jobs(songs);
    var t1 := CreateDirEffect(t, DOWNLOADED_PATH, mkdirOk(DOWNLOADED_PATH));
    var steps := FetchAll(t1, jobs, server, |songs|).steps;
    FetchAllSteps(t1, jobs, server, |songs|);
    var trace := RunPlaylist(t, playlist, existing, server, extract, mkdirOk, rmdirOk).trace;
    assert trace[1..|jobs| + 1] == steps by {
      RunPlaylistSteps(t, playlist, existing, server, extract, mkdirOk, rmdirOk);
    }
    forall i | 0 <= i < |jobs|
      ensures trace[1 + i] == DownloadStep(i + 1, |songs|, jobs[i], FetchJob(t1, jobs[i], server).outcome)
    {
      assert trace[1 + i] == trace[1..|jobs| + 1][i];
    }
  }

  /** The unpack step covers every pending song, keyless ones included, in
      order, and reads the archives exactly as the download loop left
      them: removing the unpack directory before it touches none. */
  lemma RunUnpacksDownloads(t: Tree, playlist: Playlist, existing: seq<string>, server: string -> GetReply,
                            extract: (Bytes, Path) -> ExtractResult, mkdirOk: Path -> bool, rmdirOk: Path -> bool)
    ensures var songs := Pending(playlist.songs, existing);
            var jobs := Jobs(songs);
            var t1 := CreateDirEffect(t, DOWNLOADED_PATH, mkdirOk(DOWNLOADED_PATH));
            var fetched := FetchAll(t1, jobs, server, |songs|);
            var trace := RunPlaylist(t, playlist, existing, server, extract, mkdirOk, rmdirOk).trace;
            && |trace| == |jobs| + 5
            && trace[|jobs| + 2].UnpackStep?
            && |trace[|jobs| + 2].reports| == |songs|
            && (forall i :: 0 <= i < |songs| ==>
                  trace[|jobs| + 2].reports[i] ==
                    UnpackZipReport(fetched.tree, extract, ArchivePath(songs[i].hash), songs[i].hash))
  {
    var songs := Pending(playlist.songs, existing);
    var jobs := Jobs(songs);
    var t1 := CreateDirEffect(t, DOWNLOADED_PATH, mkdirOk(DOWNLOADED_PATH));
    var fetched := FetchAll(t1, jobs, server, |songs|);
    var t2 := RemoveDirEffect(fetched.tree, UNPACKED_PATH, rmdirOk(UNPACKED_PATH));
    UnpackAllReports(t2, songs, extract, mkdirOk(UNPACKED_PATH));
    RemoveUnpackedKeepsArchives(fetched.tree, rmdirOk(UNPACKED_PATH));
    var reports := UnpackAll(t2, songs, extract, mkdirOk(UNPACKED_PATH)).reports;
    var trace := RunPlaylist(t, playlist, existing, server, extract, mkdirOk, rmdirOk).trace;
    assert trace[|jobs| + 2] == UnpackStep(reports);
    forall i | 0 <= i < |songs|
      ensures reports[i] == UnpackZipReport(fetched.tree, extract, ArchivePath(songs[i].hash), songs[i].hash)
    {
      ReportOfSameArchives(fetched.tree, t2, extract, songs[i].hash);
    }
  }

  /** Removing the unpack directory never touches a downloaded archive. */
  lemma RemoveUnpackedKeepsArchives(t: Tree, osOk: bool)
    ensures SameArchives(t, RemoveDirEffect(t, UNPACKED_PATH, osOk))
  {
    forall p | Beneath(p, DOWNLOADED_PATH)
      ensures p != UNPACKED_PATH && !Beneath(p, UNPACKED_PATH)
    {
      assert p[5] == '/';
    }
  }

  /** At the end of a run whose download directory existed and whose
      removal succeeds, the download directory and every archive in it
      are gone. */
  lemma RunRemovesDownloads(t: Tree, playlist: Playlist, existing: seq<string>, server: string -> GetReply,
                            extract: (Bytes, Path) -> ExtractResult, mkdirOk: Path -> bool, rmdirOk: Path -> bool, p: Path)
    requires DOWNLOADED_PATH in t.dirs || mkdirOk(DOWNLOADED_PATH)
    requires rmdirOk(DOWNLOADED_PATH)
    ensures var final := RunPlaylist(t, playlist, existing, server, extract, mkdirOk, rmdirOk).tree;
            DOWNLOADED_PATH !in final.dirs && (Beneath(p, DOWNLOADED_PATH) ==> p !in final.files)
  {
    var songs := Pending(playlist.songs, existing);
    var t1 := CreateDirEffect(t, DOWNLOADED_PATH, mkdirOk(DOWNLOADED_PATH));
    var fetched := FetchAll(t1, Jobs(songs), server, |songs|);
    var t2 := RemoveDirEffect(fetched.tree, UNPACKED_PATH, rmdirOk(UNPACKED_PATH));
    var unpacked := UnpackAll(t2, songs, extract, mkdirOk(UNPACKED_PATH));
    FetchAllDirs(t1, Jobs(songs), server, |songs|);
    assert DOWNLOADED_PATH in t2.dirs by {
      RemoveDirContract(fetched.tree, UNPACKED_PATH, rmdirOk(UNPACKED_PATH), DOWNLOADED_PATH);
    }
    UnpackAllKeepsDirs(t2, songs, extract, mkdirOk(UNPACKED_PATH));
    RemoveDirContract(unpacked.tree, DOWNLOADED_PATH, true, p);
  }

  /** Removing the download directory at the end keeps every file beneath
      the unpack directory as the unpacking left it. */
  lemma RunKeepsUnpacked(t: Tree, playlist: Playlist, existing: seq<string>, server: string -> GetReply,
                         extract: (Bytes, Path) -> ExtractResult, mkdirOk: Path -> bool, rmdirOk: Path -> bool, p: Path)
    requires Beneath(p, UNPACKED_PATH)
    ensures var songs := Pending(playlist.songs, existing);
            var t1 := CreateDirEffect(t, DOWNLOADED_PATH, mkdirOk(DOWNLOADED_PATH));
            var fetched := FetchAll(t1, Jobs(songs), server, |songs|);
            var t2 := RemoveDirEffect(fetched.tree, UNPACKED_PATH, rmdirOk(UNPACKED_PATH));
            var unpacked := UnpackAll(t2, songs, extract, mkdirOk(UNPACKED_PATH));
            var final := RunPlaylist(t, playlist, existing, server, extract, mkdirOk, rmdirOk).tree;
            && (p in final.files <==> p in unpacked.tree.files)
            && (p in final.files ==> final.files[p] == unpacked.tree.files[p])
  {
    var songs := Pending(playlist.songs, existing);
    var t1 := CreateDirEffect(t, DOWNLOADED_PATH, mkdirOk(DOWNLOADED_PATH));
    var fetched := FetchAll(t1, Jobs(songs), server, |songs|);
    var t2 := RemoveDirEffect(fetched.tree, UNPACKED_PATH, rmdirOk(UNPACKED_PATH));
    var unpacked := UnpackAll(t2, songs, extract, mkdirOk(UNPACKED_PATH));
    assert p[5] == '_';
    RemoveDirContract(unpacked.tree, DOWNLOADED_PATH, rmdirOk(DOWNLOADED_PATH), p);
  }

  /** The steps of `main` once the playlist is read (src/main.rs:20-61). */
  method RunPlaylistOn(playlist: Playlist, existing: seq<string>,
                       server: string -> GetReply, extract: (Bytes, Path) -> ExtractResult,
                       mkdirOk: Path -> bool, rmdirOk: Path -> bool, fs: Disk)
    returns (trace: seq<Step>)
    modifies fs
    ensures RunRecord(fs.State(), trace) ==
              RunPlaylist(old(fs.State()), playlist, existing, server, extract, mkdirOk, rmdirOk)
  {
    var songs := RetainedSongs(playlist.songs, existing);
    CreateDir(fs, DOWNLOADED_PATH, mkdirOk(DOWNLOADED_PATH));
    var downloads := FetchLoop(fs, Jobs(songs), server, |songs|);
    RemoveDir(fs, UNPACKED_PATH, rmdirOk(UNPACKED_PATH));
    var reports := UnpackSongs(fs, songs, extract, mkdirOk(UNPACKED_PATH));
    RemoveDir(fs, DOWNLOADED_PATH, rmdirOk(DOWNLOADED_PATH));
    // `save_playlist` writes a file whose name holds the current time; it
    // is outside the modelled tree
    trace := [MakeDirStep(DOWNLOADED_PATH)] + downloads +
             [RemoveDirStep(UNPACKED_PATH), UnpackStep(reports),
              RemoveDirStep(DOWNLOADED_PATH), SaveStep(playlist)];
  }

  /** `playlist.songs.iter().collect()` into a vector, then `retain`
      (src/main.rs:20-26). */
  method RetainedSongs(playlistSongs: seq<Song>, existing: seq<string>) returns (songs: seq<Song>)
    ensures songs == Pending(playlistSongs, existing)
  {
    var songArray := new Song[|playlistSongs|](i requires 0 <= i < |playlistSongs| => playlistSongs[i]);
    assert songArray[..] == playlistSongs;
    var n := Retain(songArray, existing);
    songs := songArray[..n];
  }

  /** `main` (src/main.rs:12-71), with `args` the command line (the first
      element is the program name). */
  method Run(args: seq<string>, readBplist: string -> Option<Playlist>, existing: seq<string>,
             server: string -> GetReply, extract: (Bytes, Path) -> ExtractResult,
             mkdirOk: Path -> bool, rmdirOk: Path -> bool, fs: Disk)
    returns (trace: seq<Step>)
    modifies fs
    ensures RunRecord(fs.State(), trace) ==
              RunSpec(args, readBplist, existing, server, extract, mkdirOk, rmdirOk, old(fs.State()))
  {
    if |args| < 2 {
      return [];
    }
    var playlist := readBplist(args[1]);
    if playlist.None? {
      return [];
    }
    trace := RunPlaylistOn(playlist.value, existing, server, extract, mkdirOk, rmdirOk, fs);
  }
}
