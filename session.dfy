/**
 * What one run of the installer does to the outside world, as pure
 * functions over a `Host`: the ordered trace of effects, the directories
 * that exist, and the contents of staged files. Prompts, the network, the
 * archive's entries and the operating system's answers are inputs.
 */
module Session {
  import opened Results
  import opened Streams
  import opened Targets
  import opened Staging
  import opened Download

  /** The local filesystem step an `Error::Io` comes from. */
  datatype IoStep = CreateStaging | OpenTarball | CreateInstallDir | ReadEntry

  /** The installer's `Error` enum: `Io`, `HttpRequest` and `Anyhow`. */
  datatype Error = Io(step: IoStep) | HttpRequest | Anyhow(message: string)

  /** The error a response without a content length produces (spelling as in the program). */
  const MissingContentLength: Error := Anyhow("Missing content lenght!")

  /** Observable effects, in the order they happen. */
  datatype Event =
    | Requested(url: string)           // GET of a tarball URL (the release index GET is not recorded)
    | Staged(path: string)             // staging file created (truncated)
    | Downloaded(path: string)         // the whole body was written
    | DirCreated(path: string)         // single-level `create_dir`
    | Unpacked(dir: string, entry: string)  // `unpack_in(dir)` of one archive entry
    | Reported(error: Error)           // `get_latest` prints an error
    | Exit(code: int)                  // the process ends with this status

  /** The state the installer acts on. */
  datatype Host = Host(trace: seq<Event>, dirs: set<string>, files: map<string, seq<bv8>>)

  /** A host after a step, with the step's result. */
  datatype After<T> = After(host: Host, result: T)

  /** What the server answers to a GET: its final URL's path, an optional content length, the body. */
  datatype Reply = Unreachable | Reply(contentLength: Option<nat>, urlPath: string, body: seq<Chunk>)

  /** The operating system's answers to `File::create` in /tmp/ and to `fs::create_dir`. */
  datatype Os = Os(stagingCreatable: bool, installDirCreatable: bool)

  /** Everything one run depends on besides the host. */
  datatype Inputs = Inputs(
    menu: Prompt<Menu>, system: Prompt<System>, arch: Prompt<Architecture>,
    manifest: Obj, home: string, confirm: Prompt<bool>,
    network: string -> Reply, os: Os, archive: seq<Next<string>>)

  /** How `utar_bin` ends: it returns a result, or it has ended the process. */
  datatype Flow = Returned(result: Result<(), Error>) | Exited

  /** `utar_bin`'s install directory. */
  function InstallPath(home: string): string
  {
    home + "/.zig/"
  }

  function Record(h: Host, events: seq<Event>): Host
  {
    h.(trace := h.trace + events)
  }

  predicate NoExit(events: seq<Event>)
  {
    forall i :: 0 <= i < |events| ==> !events[i].Exit?
  }

  predicate Extracting(e: Event)
  {
    e.DirCreated? || e.Unpacked?
  }

  /** `h2` is `h1` with events appended to the trace, none of which ends the process. */
  predicate Continues(h1: Host, h2: Host)
  {
    |h1.trace| <= |h2.trace| && h2.trace[..|h1.trace|] == h1.trace && NoExit(h2.trace[|h1.trace|..])
  }

  /** One `Unpacked` event per entry, in archive order, all into `dir`. */
  function Unpacks(dir: string, entries: seq<string>): (events: seq<Event>)
    ensures |events| == |entries|
  {
    if entries == [] then []
    else Unpacks(dir, entries[..|entries| - 1]) + [Unpacked(dir, entries[|entries| - 1])]
  }

  /** The `i`-th unpack event is that of the `i`-th entry, into `dir`. */
  lemma {:induction false} UnpacksAt(dir: string, entries: seq<string>)
    ensures forall i :: 0 <= i < |entries| ==> Unpacks(dir, entries)[i] == Unpacked(dir, entries[i])
  {
    if entries != [] {
      UnpacksAt(dir, entries[..|entries| - 1]);
    }
  }

  /** `download_tar`. */
  function DownloadEffect(h: Host, target: string, network: string -> Reply, os: Os): After<Result<string, Error>>
  {
    var h1 := Record(h, [Requested(target)]);
    match network(target)
    case Unreachable => After(h1, Err(HttpRequest))
    case Reply(length, urlPath, body) =>
      if length.None? then After(h1, Err(MissingContentLength))
      else if !os.stagingCreatable then After(h1, Err(Io(CreateStaging)))
      else
        var path := StagedPath(urlPath);
        var h2 := Record(h1, [Staged(path)]).(files := h1.files[path := Concat(Taken(body))]);
        if Intact(body) then After(Record(h2, [Downloaded(path)]), Ok(path))
        else After(h2, Err(HttpRequest))
  }

  /** `extract_tarball`. */
  function ExtractEffect(h: Host, installPath: string, tarPath: string, os: Os, archive: seq<Next<string>>)
    : After<Result<(), Error>>
  {
    if tarPath !in h.files then After(h, Err(Io(OpenTarball)))
    else if installPath !in h.dirs && !os.installDirCreatable then After(h, Err(Io(CreateInstallDir)))
    else
      var h1 :=
        if installPath in h.dirs then h
        else Record(h, [DirCreated(installPath)]).(dirs := h.dirs + {installPath});
      After(Record(h1, Unpacks(installPath, Taken(archive))),
            if Intact(archive) then Ok(()) else Err(Io(ReadEntry)))
  }

  /** `utar_bin` together with `confirm_unpack`. */
  function UtarEffect(h: Host, target: string, inputs: Inputs): After<Flow>
  {
    match inputs.confirm
    case Cancelled => After(Record(h, [Exit(1)]), Exited)
    case Answered(accept) =>
      var d := DownloadEffect(h, target, inputs.network, inputs.os);
      match d.result
      case Err(e) => After(d.host, Returned(Err(e)))
      case Ok(tarPath) =>
        if !accept then After(Record(d.host, [Exit(0)]), Exited)
        else
          var x := ExtractEffect(d.host, InstallPath(inputs.home), tarPath, inputs.os, inputs.archive);
          After(x.host, Returned(x.result))
  }

  /** `get_latest`; the result says whether the process has ended. */
  function GetLatestEffect(h: Host, archi: string, inputs: Inputs): After<bool>
  {
    match Resolve(inputs.manifest.master, archi)
    case None => After(Record(h, [Exit(1)]), true)
    case Some(url) =>
      var u := UtarEffect(h, url, inputs);
      match u.result
      case Exited => After(u.host, true)
      case Returned(Ok(_)) => After(u.host, false)
      case Returned(Err(e)) => After(Record(u.host, [Reported(e)]), false)
  }

  /** `main`; returning from `main` ends the process with status 0. */
  function RunEffect(h: Host, inputs: Inputs): Host
  {
    match Select(inputs.menu, inputs.system, inputs.arch)
    case Stop => Record(h, [Exit(0)])
    case Picked(t) =>
      var g := GetLatestEffect(h, Dispatch(t), inputs);
      if g.result then g.host else Record(g.host, [Exit(0)])
  }

  /** The trace of a whole run on a host whose directories and files are given. */
  function Trace(inputs: Inputs, dirs: set<string>, files: map<string, seq<bv8>>): seq<Event>
  {
    RunEffect(Host([], dirs, files), inputs).trace
  }

  /** The tarball URL a selected target downloads. */
  function TarballOf(manifest: Master, t: Target): string
  {
    ResolveSelectsTargetTarball(manifest, t);
    Field(manifest, ManifestKey(t)).value.tarball
  }

  // ---------------------------------------------------------------- download

  /** A response without a content length fails before any staging file exists. */
  lemma MissingLengthStagesNothing(h: Host, target: string, network: string -> Reply, os: Os)
    requires network(target).Reply? && network(target).contentLength.None?
    ensures DownloadEffect(h, target, network, os) == After(Record(h, [Requested(target)]), Err(MissingContentLength))
  {
  }

  /**
   * Once the staging file is created, it is "/tmp/" plus the URL's final
   * segment and holds exactly the chunks before the first failure, in
   * arrival order, as many bytes as their lengths add up to; the download
   * succeeds exactly when no chunk fails.
   */
  lemma DownloadStagesBody(h: Host, target: string, network: string -> Reply, os: Os)
    requires network(target).Reply? && network(target).contentLength.Some? && os.stagingCreatable
    ensures var reply := network(target);
      var path := StagedPath(reply.urlPath);
      var a := DownloadEffect(h, target, network, os);
      path == "/tmp/" + StagedName(reply.urlPath) &&
      a.host.files == h.files[path := Concat(Taken(reply.body))] &&
      |a.host.files[path]| == TotalLength(Taken(reply.body)) &&
      a.result == if Intact(reply.body) then Ok(path) else Err(HttpRequest)
  {
    ConcatLength(Taken(network(target).body));
  }

  // -------------------------------------------------------------- extraction

  /**
   * Extraction itself creates the install directory, and no other one, only
   * when it is missing, then unpacks the readable entries into it in archive order;
   * it succeeds exactly when the tarball opens, the directory exists or can
   * be created, and every entry reads.
   */
  lemma ExtractCreatesOnlyMissingDir(h: Host, installPath: string, tarPath: string, os: Os, archive: seq<Next<string>>)
    ensures var a := ExtractEffect(h, installPath, tarPath, os, archive);
      var reached := tarPath in h.files && (installPath in h.dirs || os.installDirCreatable);
      (a.result.Ok? <==> reached && Intact(archive)) &&
      (!reached ==> a.host == h) &&
      (reached ==> a.host.dirs == h.dirs + {installPath}) &&
      (reached && installPath in h.dirs ==>
        a.host.trace == h.trace + Unpacks(installPath, Taken(archive))) &&
      (reached && installPath !in h.dirs ==>
        a.host.trace == h.trace + [DirCreated(installPath)] + Unpacks(installPath, Taken(archive)))
  {
    TakenAll(archive);
  }

  // ------------------------------------------------------------ whole runs

  /** An unknown dispatch string ends the process with status 1 and no tarball is requested. */
  lemma UnknownDispatchExitsOne(h: Host, archi: string, inputs: Inputs)
    requires archi !in Dispatches
    ensures GetLatestEffect(h, archi, inputs) == After(Record(h, [Exit(1)]), true)
  {
  }

  /** What `get_latest` and `main` add to the trace once `utar_bin` is done. */
  function Epilogue(flow: Flow): seq<Event>
  {
    match flow
    case Exited => []
    case Returned(Ok(_)) => [Exit(0)]
    case Returned(Err(e)) => [Reported(e), Exit(0)]
  }

  /** A picked target's run is `utar_bin` on that target's tarball, then the epilogue. */
  lemma PickedTrace(inputs: Inputs, dirs: set<string>, files: map<string, seq<bv8>>)
    requires Select(inputs.menu, inputs.system, inputs.arch).Picked?
    ensures var target := Select(inputs.menu, inputs.system, inputs.arch).target;
      var u := UtarEffect(Host([], dirs, files), TarballOf(inputs.manifest.master, target), inputs);
      Trace(inputs, dirs, files) == u.host.trace + Epilogue(u.result)
  {
    var target := Select(inputs.menu, inputs.system, inputs.arch).target;
    var h := Host([], dirs, files);
    ResolveSelectsTargetTarball(inputs.manifest.master, target);
    var u := UtarEffect(h, TarballOf(inputs.manifest.master, target), inputs);
    var g := GetLatestEffect(h, Dispatch(target), inputs);
    assert RunEffect(h, inputs) == if g.result then g.host else Record(g.host, [Exit(0)]);
    match u.result
    case Exited =>
    case Returned(Ok(_)) =>
    case Returned(Err(e)) =>
      assert g.host.trace == u.host.trace + [Reported(e)];
  }

  /**
   * A download records its request first, then at most the staging file and
   * the completed download; a successful one records both, its file last.
   */
  lemma DownloadShape(h: Host, url: string, network: string -> Reply, os: Os)
    ensures var a := DownloadEffect(h, url, network, os);
      var n := |h.trace|;
      n < |a.host.trace| <= n + 3 && a.host.trace[..n + 1] == h.trace + [Requested(url)] &&
      (forall i :: n < i < |a.host.trace| ==> a.host.trace[i].Staged? || a.host.trace[i].Downloaded?) &&
      (a.result.Ok? ==>
         |a.host.trace| == n + 3 && a.host.trace[n + 1] == Staged(a.result.value) &&
         a.host.trace[n + 2] == Downloaded(a.result.value)) &&
      (a.result.Err? ==>
         |a.host.trace| <= n + 2 && forall i :: n < i < |a.host.trace| ==> a.host.trace[i].Staged?)
  {
  }

  /**
   * Once the destination is answered, `utar_bin` either ends the process
   * right after a declined, successful download, or returns having added
   * events that do not end it.
   */
  lemma UtarShape(h: Host, url: string, inputs: Inputs)
    requires inputs.confirm.Answered?
    ensures var u := UtarEffect(h, url, inputs);
      var d := DownloadEffect(h, url, inputs.network, inputs.os);
      (u.result.Exited? ==> !inputs.confirm.value && d.result.Ok? && u.host.trace == d.host.trace + [Exit(0)]) &&
      (u.result.Returned? ==> Continues(h, u.host))
  {
    var d := DownloadEffect(h, url, inputs.network, inputs.os);
    var n := |h.trace|;
    DownloadShape(h, url, inputs.network, inputs.os);
    assert NoExit(d.host.trace[n..]) by {
      forall i | 0 <= i < |d.host.trace[n..]| ensures !d.host.trace[n..][i].Exit? {
        assert d.host.trace[n..][i] == d.host.trace[n + i];
      }
    }
    if d.result.Ok? && inputs.confirm.value {
      var x := ExtractEffect(d.host, InstallPath(inputs.home), d.result.value, inputs.os, inputs.archive);
      ExtractEvents(d.host, InstallPath(inputs.home), d.result.value, inputs.os, inputs.archive);
      assert x.host.trace[..n] == h.trace by {
        assert x.host.trace[..n] == x.host.trace[..|d.host.trace|][..n];
      }
      forall i | 0 <= i < |x.host.trace[n..]| ensures !x.host.trace[n..][i].Exit? {
        assert x.host.trace[n..][i] == x.host.trace[n + i];
        if n + i < |d.host.trace| {
          assert x.host.trace[n + i] == d.host.trace[n + i];
        }
      }
    }
  }

  /** Appending events that end with their only exit to exit-free events ends with one exit. */
  lemma ExitsOnceAfter(prefix: seq<Event>, tail: seq<Event>)
    requires NoExit(prefix)
    requires |tail| > 0 && tail[|tail| - 1].Exit? && NoExit(tail[..|tail| - 1])
    ensures var t := prefix + tail; t[|t| - 1].Exit? && NoExit(t[..|t| - 1])
  {
    var t := prefix + tail;
    assert t[..|t| - 1] == prefix + tail[..|tail| - 1];
  }

  /** A download on an empty trace ends nothing. */
  lemma DownloadNoExit(dirs: set<string>, files: map<string, seq<bv8>>, url: string, network: string -> Reply, os: Os)
    ensures NoExit(DownloadEffect(Host([], dirs, files), url, network, os).host.trace)
  {
    var t := DownloadEffect(Host([], dirs, files), url, network, os).host.trace;
    DownloadShape(Host([], dirs, files), url, network, os);
    assert t[0] == Requested(url);
  }

  /** Every run ends with exactly one exit, its last event. */
  lemma EveryRunExitsOnce(inputs: Inputs, dirs: set<string>, files: map<string, seq<bv8>>)
    ensures var t := Trace(inputs, dirs, files);
      |t| > 0 && t[|t| - 1].Exit? && NoExit(t[..|t| - 1])
  {
    var sel := Select(inputs.menu, inputs.system, inputs.arch);
    var t := Trace(inputs, dirs, files);
    if sel.Stop? {
      MenusStopWithZero(inputs, dirs, files);
    } else if inputs.confirm.Cancelled? {
      CancelledConfirmExitsOne(inputs, dirs, files);
    } else {
      PickedRunExitsOnce(inputs, dirs, files);
    }
  }

  lemma PickedRunExitsOnce(inputs: Inputs, dirs: set<string>, files: map<string, seq<bv8>>)
    requires Select(inputs.menu, inputs.system, inputs.arch).Picked?
    requires inputs.confirm.Answered?
    ensures var t := Trace(inputs, dirs, files);
      |t| > 0 && t[|t| - 1].Exit? && NoExit(t[..|t| - 1])
  {
    var h := Host([], dirs, files);
    var url := TarballOf(inputs.manifest.master, Select(inputs.menu, inputs.system, inputs.arch).target);
    var u := UtarEffect(h, url, inputs);
    var t := Trace(inputs, dirs, files);
    PickedTrace(inputs, dirs, files);
    UtarShape(h, url, inputs);
    if u.result.Exited? {
      var d := DownloadEffect(h, url, inputs.network, inputs.os);
      DownloadNoExit(dirs, files, url, inputs.network, inputs.os);
      assert t == d.host.trace + [Exit(0)];
      ExitsOnceAfter(d.host.trace, [Exit(0)]);
    } else {
      assert u.host.trace[|h.trace|..] == u.host.trace;
      assert t == u.host.trace + Epilogue(u.result);
      ExitsOnceAfter(u.host.trace, Epilogue(u.result));
    }
  }

  /** Cancelling or quitting a menu ends the run with status 0 and no other effect. */
  lemma MenusStopWithZero(inputs: Inputs, dirs: set<string>, files: map<string, seq<bv8>>)
    requires Select(inputs.menu, inputs.system, inputs.arch) == Stop
    ensures Trace(inputs, dirs, files) == [Exit(0)]
  {
  }

  /** Cancelling the confirmation ends the run with status 1 before any download. */
  lemma CancelledConfirmExitsOne(inputs: Inputs, dirs: set<string>, files: map<string, seq<bv8>>)
    requires Select(inputs.menu, inputs.system, inputs.arch).Picked?
    requires inputs.confirm == Cancelled
    ensures Trace(inputs, dirs, files) == [Exit(1)]
  {
    PickedTrace(inputs, dirs, files);
  }

  /**
   * Every event extraction adds creates the install directory, which was
   * missing, or unpacks an entry into it.
   */
  lemma ExtractEvents(h: Host, installPath: string, tarPath: string, os: Os, archive: seq<Next<string>>)
    ensures var a := ExtractEffect(h, installPath, tarPath, os, archive);
      |h.trace| <= |a.host.trace| && a.host.trace[..|h.trace|] == h.trace &&
      forall i :: |h.trace| <= i < |a.host.trace| ==>
        Extracting(a.host.trace[i]) &&
        (a.host.trace[i].Unpacked? ==> a.host.trace[i].dir == installPath) &&
        (a.host.trace[i].DirCreated? ==> a.host.trace[i].path == installPath && installPath !in h.dirs)
  {
    var a := ExtractEffect(h, installPath, tarPath, os, archive);
    var unpacks := Unpacks(installPath, Taken(archive));
    ExtractCreatesOnlyMissingDir(h, installPath, tarPath, os, archive);
    if tarPath in h.files && (installPath in h.dirs || os.installDirCreatable) {
      UnpacksAt(installPath, Taken(archive));
      var pre := if installPath in h.dirs then [] else [DirCreated(installPath)];
      var n := |h.trace| + |pre|;
      assert a.host.trace == h.trace + pre + unpacks;
      forall i | |h.trace| <= i < |a.host.trace|
        ensures Extracting(a.host.trace[i])
        ensures a.host.trace[i].Unpacked? ==> a.host.trace[i].dir == installPath
        ensures a.host.trace[i].DirCreated? ==> a.host.trace[i].path == installPath && installPath !in h.dirs
      {
        if i < n {
          assert a.host.trace[i] == pre[i - |h.trace|];
        } else {
          assert a.host.trace[i] == unpacks[i - n];
        }
      }
    }
  }

  /**
   * An accepted destination makes `utar_bin` return: after a failed download
   * with the download's effects only, otherwise with extraction's effects
   * after them.
   */
  lemma AcceptShape(h: Host, url: string, inputs: Inputs)
    requires inputs.confirm == Answered(true)
    ensures var u := UtarEffect(h, url, inputs);
      var d := DownloadEffect(h, url, inputs.network, inputs.os);
      u.result.Returned? &&
      (d.result.Err? ==> u.host == d.host) &&
      (d.result.Ok? ==> u.host == ExtractEffect(d.host, InstallPath(inputs.home), d.result.value, inputs.os, inputs.archive).host)
  {
  }

  /** With the destination answered, `utar_bin` requests its tarball first and no other one. */
  lemma UtarRequestsOnce(dirs: set<string>, files: map<string, seq<bv8>>, url: string, inputs: Inputs)
    requires inputs.confirm.Answered?
    ensures var t := UtarEffect(Host([], dirs, files), url, inputs).host.trace;
      |t| > 0 && t[0] == Requested(url) && forall i :: 0 < i < |t| ==> !t[i].Requested?
  {
    var h := Host([], dirs, files);
    var d := DownloadEffect(h, url, inputs.network, inputs.os);
    var t := UtarEffect(h, url, inputs).host.trace;
    DownloadShape(h, url, inputs.network, inputs.os);
    if inputs.confirm.value {
      AcceptShape(h, url, inputs);
      if d.result.Ok? {
        ExtractEvents(d.host, InstallPath(inputs.home), d.result.value, inputs.os, inputs.archive);
      }
    } else {
      UtarShape(h, url, inputs);
    }
    assert t[..1] == d.host.trace[..1];
    forall i | 0 < i < |t| ensures !t[i].Requested? {
      if i < |d.host.trace| {
        assert t[i] == d.host.trace[i];
      }
    }
  }

  /**
   * Once a target is picked and the destination answered, the run requests
   * exactly one tarball URL, that target's platform key's, first.
   */
  lemma OneUrlRequested(inputs: Inputs, dirs: set<string>, files: map<string, seq<bv8>>)
    requires Select(inputs.menu, inputs.system, inputs.arch).Picked?
    requires inputs.confirm.Answered?
    ensures var t := Trace(inputs, dirs, files);
      var target := Select(inputs.menu, inputs.system, inputs.arch).target;
      |t| > 0 && t[0] == Requested(TarballOf(inputs.manifest.master, target)) &&
      forall i :: 0 < i < |t| ==> !t[i].Requested?
  {
    var target := Select(inputs.menu, inputs.system, inputs.arch).target;
    var url := TarballOf(inputs.manifest.master, target);
    var u := UtarEffect(Host([], dirs, files), url, inputs);
    var t := Trace(inputs, dirs, files);
    PickedTrace(inputs, dirs, files);
    UtarRequestsOnce(dirs, files, url, inputs);
    assert t == u.host.trace + Epilogue(u.result);
    forall i | 0 < i < |t| ensures !t[i].Requested? {
      if i < |u.host.trace| {
        assert t[i] == u.host.trace[i];
      } else {
        assert t[i] == Epilogue(u.result)[i - |u.host.trace|];
      }
    }
  }

  /** A declined destination downloads, then exits with status 0 whether or not the download worked. */
  lemma DeclineShape(h: Host, url: string, inputs: Inputs)
    requires inputs.confirm == Answered(false)
    ensures var u := UtarEffect(h, url, inputs);
      var d := DownloadEffect(h, url, inputs.network, inputs.os);
      u.host.trace + Epilogue(u.result) ==
        d.host.trace + (if d.result.Ok? then [Exit(0)] else [Reported(d.result.error), Exit(0)])
  {
  }

  /** Declining the default destination downloads, never extracts, and ends with status 0. */
  lemma DecliningOnlyDownloads(inputs: Inputs, dirs: set<string>, files: map<string, seq<bv8>>)
    requires Select(inputs.menu, inputs.system, inputs.arch).Picked?
    requires inputs.confirm == Answered(false)
    ensures var t := Trace(inputs, dirs, files);
      |t| > 0 && t[|t| - 1] == Exit(0) &&
      forall i :: 0 <= i < |t| ==> !Extracting(t[i])
  {
    var target := Select(inputs.menu, inputs.system, inputs.arch).target;
    var h := Host([], dirs, files);
    var url := TarballOf(inputs.manifest.master, target);
    var d := DownloadEffect(h, url, inputs.network, inputs.os);
    var t := Trace(inputs, dirs, files);
    PickedTrace(inputs, dirs, files);
    DeclineShape(h, url, inputs);
    DownloadShape(h, url, inputs.network, inputs.os);
    var tail := if d.result.Ok? then [Exit(0)] else [Reported(d.result.error), Exit(0)];
    assert t == d.host.trace + tail;
    assert d.host.trace[0] == Requested(url);
    forall i | 0 <= i < |t| ensures !Extracting(t[i]) {
      if i < |d.host.trace| {
        assert t[i] == d.host.trace[i];
      } else {
        assert t[i] == tail[i - |d.host.trace|];
      }
    }
  }

  /** Extraction events of an accepted `utar_bin` follow its completed download. */
  lemma AcceptedUtarOrder(dirs: set<string>, files: map<string, seq<bv8>>, url: string, inputs: Inputs)
    requires inputs.confirm == Answered(true)
    ensures var t := UtarEffect(Host([], dirs, files), url, inputs).host.trace;
      var dir := InstallPath(inputs.home);
      forall i :: 0 <= i < |t| && Extracting(t[i]) ==>
        2 < i && t[2].Downloaded? &&
        (t[i].Unpacked? ==> t[i].dir == dir) &&
        (t[i].DirCreated? ==> t[i].path == dir && dir !in dirs)
  {
    var h := Host([], dirs, files);
    var d := DownloadEffect(h, url, inputs.network, inputs.os);
    var t := UtarEffect(h, url, inputs).host.trace;
    var dir := InstallPath(inputs.home);
    DownloadShape(h, url, inputs.network, inputs.os);
    AcceptShape(h, url, inputs);
    if d.result.Ok? {
      ExtractEvents(d.host, dir, d.result.value, inputs.os, inputs.archive);
      assert t[..3] == d.host.trace;
    }
  }

  /**
   * Accepting it downloads first: every directory creation or unpacked entry
   * comes after the completed download, and all of them are in the install
   * path, home + "/.zig/", which is created only if it was missing. The run
   * ends with status 0.
   */
  lemma AcceptingExtractsAfterDownload(inputs: Inputs, dirs: set<string>, files: map<string, seq<bv8>>)
    requires Select(inputs.menu, inputs.system, inputs.arch).Picked?
    requires inputs.confirm == Answered(true)
    ensures var t := Trace(inputs, dirs, files);
      var dir := InstallPath(inputs.home);
      |t| > 0 && t[|t| - 1] == Exit(0) &&
      (forall i :: 0 <= i < |t| && Extracting(t[i]) ==> 2 < i && t[2].Downloaded?) &&
      (forall i :: 0 <= i < |t| && t[i].Unpacked? ==> t[i].dir == dir) &&
      (forall i :: 0 <= i < |t| && t[i].DirCreated? ==> t[i].path == dir && dir !in dirs)
  {
    var target := Select(inputs.menu, inputs.system, inputs.arch).target;
    var url := TarballOf(inputs.manifest.master, target);
    var u := UtarEffect(Host([], dirs, files), url, inputs);
    var t := Trace(inputs, dirs, files);
    PickedTrace(inputs, dirs, files);
    AcceptShape(Host([], dirs, files), url, inputs);
    AcceptedUtarOrder(dirs, files, url, inputs);
    var tail := Epilogue(u.result);
    assert t == u.host.trace + tail;
    assert |tail| > 0 && tail[|tail| - 1] == Exit(0);
    assert forall j :: 0 <= j < |tail| ==> !Extracting(tail[j]);
    assert forall i :: 0 <= i < |u.host.trace| ==> t[i] == u.host.trace[i];
  }
}
