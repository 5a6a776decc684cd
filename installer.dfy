/**
 * The installer's effectful functions, step by step as the program runs
 * them, on a machine whose observable state is a trace of effects, the
 * directories that exist, and the staged files. Each method is proved to
 * have exactly the effect its `Session` specification gives.
 */
module Installer {
  import opened Results
  import opened Streams
  import opened Targets
  import opened Staging
  import opened Download
  import opened Session

  /** Taking one more readable entry unpacks exactly that entry next. */
  lemma TakeEntry(archive: seq<Next<string>>, i: nat, dir: string)
    requires i < |archive| && Intact(archive[..i]) && archive[i].Item?
    ensures Intact(archive[..i + 1])
    ensures Unpacks(dir, Taken(archive[..i + 1])) ==
            Unpacks(dir, Taken(archive[..i])) + [Unpacked(dir, archive[i].value)]
  {
    TakenStep(archive, i);
    var taken := Taken(archive[..i + 1]);
    assert taken[..|taken| - 1] == Taken(archive[..i]);
  }

  class Machine {
    /** Effects so far, oldest first. */
    var trace: seq<Event>
    /** Directories that exist. */
    var dirs: set<string>
    /** Contents of the files the installer has written. */
    var files: map<string, seq<bv8>>

    function State(): Host
      reads this
    {
      Host(trace, dirs, files)
    }

    constructor (dirs: set<string>, files: map<string, seq<bv8>>)
      ensures State() == Host([], dirs, files)
    {
      trace := [];
      this.dirs := dirs;
      this.files := files;
    }

    /** `download_tar`: fetch `target` and stream its body into a file under /tmp/. */
    method DownloadTar(target: string, network: string -> Reply, os: Os) returns (r: Result<string, Error>)
      modifies this
      ensures After(State(), r) == DownloadEffect(old(State()), target, network, os)
    {
      trace := trace + [Requested(target)];
      var response := network(target);
      if response.Unreachable? {
        return Err(HttpRequest);
      }
      if response.contentLength.None? {
        return Err(MissingContentLength);
      }
      var filename := StagedName(response.urlPath);
      var filepath := JoinPath(StagingDir, filename);
      if !os.stagingCreatable {
        return Err(Io(CreateStaging));
      }
      trace := trace + [Staged(filepath)];
      var complete := WriteBody(filepath, response.body);
      if !complete {
        return Err(HttpRequest);
      }
      trace := trace + [Downloaded(filepath)];
      r := Ok(filepath);
    }

    /**
     * `File::create` of the staging file, then the body loop through a
     * `BufWriter`, whose buffered bytes reach the file when it is dropped.
     */
    method WriteBody(filepath: string, body: seq<Chunk>) returns (complete: bool)
      modifies this
      ensures complete == Intact(body)
      ensures files == old(files)[filepath := Concat(Taken(body))]
      ensures trace == old(trace) && dirs == old(dirs)
    {
      files := files[filepath := []];
      var dest := new StagingWriter();
      complete := dest.CopyBody(body);
      assert dest.dest == Concat(Taken(body));
      files := files[filepath := dest.dest];
    }

    /** The entry loop of `extract_tarball`: unpack each entry into `installPath` in archive order. */
    method UnpackEntries(installPath: string, archive: seq<Next<string>>) returns (r: Result<(), Error>)
      modifies this
      ensures trace == old(trace) + Unpacks(installPath, Taken(archive))
      ensures dirs == old(dirs) && files == old(files)
      ensures r == if Intact(archive) then Ok(()) else Err(Io(ReadEntry))
    {
      var i := 0;
      while i < |archive|
        invariant 0 <= i <= |archive|
        invariant Intact(archive[..i])
        invariant trace == old(trace) + Unpacks(installPath, Taken(archive[..i]))
        invariant dirs == old(dirs) && files == old(files)
      {
        if archive[i].Broken? {
          TakenStops(archive, i);
          return Err(Io(ReadEntry));
        }
        var path := archive[i].value;
        TakeEntry(archive, i, installPath);
        trace := trace + [Unpacked(installPath, path)];
        i := i + 1;
      }
      assert archive[..i] == archive;
      r := Ok(());
    }

    /** `extract_tarball`: open the tarball, create the install directory if missing, unpack. */
    method ExtractTarball(installPath: string, tarPath: string, os: Os, archive: seq<Next<string>>)
      returns (r: Result<(), Error>)
      modifies this
      ensures After(State(), r) == ExtractEffect(old(State()), installPath, tarPath, os, archive)
    {
      if tarPath !in files {
        return Err(Io(OpenTarball));
      }
      if installPath !in dirs {
        if !os.installDirCreatable {
          return Err(Io(CreateInstallDir));
        }
        dirs := dirs + {installPath};
        trace := trace + [DirCreated(installPath)];
      }
      r := UnpackEntries(installPath, archive);
    }

    /** `utar_bin` with `confirm_unpack`: confirm the destination, download, and extract or stop. */
    method UtarBin(target: string, inputs: Inputs) returns (flow: Flow)
      modifies this
      ensures After(State(), flow) == UtarEffect(old(State()), target, inputs)
    {
      var installPath := InstallPath(inputs.home);
      var accept: bool;
      match inputs.confirm {
        case Cancelled =>
          trace := trace + [Exit(1)];
          return Exited;
        case Answered(answer) =>
          accept := answer;
      }
      if !accept {
        var staged := DownloadTar(target, inputs.network, inputs.os);
        if staged.Err? {
          return Returned(Err(staged.error));
        }
        trace := trace + [Exit(0)];
        return Exited;
      }
      var tarPath := DownloadTar(target, inputs.network, inputs.os);
      if tarPath.Err? {
        return Returned(Err(tarPath.error));
      }
      var extracted := ExtractTarball(installPath, tarPath.value, inputs.os, inputs.archive);
      flow := Returned(extracted);
    }

    /** `get_latest`: pick the tarball for `archi` and install it; `exited` if the process ended. */
    method GetLatest(archi: string, inputs: Inputs) returns (exited: bool)
      modifies this
      ensures After(State(), exited) == GetLatestEffect(old(State()), archi, inputs)
    {
      var url: string;
      match archi {
        case "linux" => url := inputs.manifest.master.x86_64_linux.tarball;
        case "arm" => url := inputs.manifest.master.aarch64_macos.tarball;
        case "x86" => url := inputs.manifest.master.x86_64_macos.tarball;
        case _ =>
          trace := trace + [Exit(1)];
          return true;
      }
      var flow := UtarBin(url, inputs);
      match flow {
        case Exited =>
          exited := true;
        case Returned(Ok(_)) =>
          exited := false;
        case Returned(Err(e)) =>
          trace := trace + [Reported(e)];
          exited := false;
      }
    }

    /** `main`: the menus, then `get_latest`; returning from main exits with status 0. */
    method Run(inputs: Inputs)
      modifies this
      ensures State() == RunEffect(old(State()), inputs)
    {
      match Select(inputs.menu, inputs.system, inputs.arch) {
        case Stop =>
          trace := trace + [Exit(0)];
        case Picked(t) =>
          var exited := GetLatest(Dispatch(t), inputs);
          if !exited {
            trace := trace + [Exit(0)];
          }
      }
    }
  }
}
