# zig-up installer core, modelled in Dafny

zig-up is a small interactive installer for the Zig compiler. The user picks
an action, an operating system and, for Mac, an architecture. The program
reads the `master` builds from Zig's release index and picks the matching
`.tar.xz` tarball. Before downloading anything, it asks whether to unpack into
the default directory `$HOME/.zig/`; cancelling that prompt exits with status
1. It then downloads the tarball into `/tmp/`. If the user declined, it stops
there. If the user accepted, it creates the directory when it is missing and
unpacks the archive's entries into it in order.

This project models the part of `src/main.rs` that makes decisions or handles
data, and leaves out the I/O glue around it:

- `results.dfy` (`Results`): Rust's `Option` and `Result`.
- `streams.dfy` (`Streams`): a fallible stream (`Next<T>`) and `Taken`, the
  items a `?`-propagating loop consumes before the first failure.
- `targets.dfy` (`Targets`): the three menus and their labels, the parsed
  manifest record (`Obj`/`Master`/`Platform`), `main`'s selection (`Select`),
  the dispatch strings, and `get_latest`'s resolution (`Resolve`).
- `staging.dfy` (`Staging`): URL path segments (`Split`/`Join`), the staging
  file name (last segment, or `tmp.bin`), and the staging path under `/tmp/`.
- `download.dfy` (`Download`): chunk concatenation and byte counts, and the
  `StagingWriter` class. Its `CopyBody` method is the `while let` loop that
  advances the progress counter and writes each chunk.
- `session.dfy` (`Session`): the effect of each step as pure functions over a
  `Host`. A `Host` holds the ordered trace of effects (`Requested`, `Staged`,
  `Downloaded`, `DirCreated`, `Unpacked`, `Reported`, `Exit`), the existing
  directories, and the staged files. This module also holds the lemmas about
  whole runs.
- `installer.dfy` (`Installer`): class `Machine`. Its methods `DownloadTar`,
  `WriteBody`, `UnpackEntries`, `ExtractTarball`, `UtarBin`, `GetLatest` and
  `Run` follow the Rust functions step by step. Each is proved to have exactly
  the effect its `Session` function gives. The loops (`CopyBody`,
  `UnpackEntries`) are the imperative content proper. The other methods
  repeat their `Session` function's case split as statements, because the
  properties of whole runs are stated and proved over those functions.

Inputs stand for everything the program gets from outside. These are the
prompt answers (a value or `Cancelled`), the parsed manifest, the home
directory, and the server's reply per URL. They also include the operating
system's answer to creating the staging file and the install directory, and
the archive's entries.

Every exit is an event. `exit(n)` inside the program is `Exit(n)`. Returning
from `main`, including after `get_latest` has printed an error, is `Exit(0)`.

Behaviours of `src/main.rs` worth knowing:

- There is no separate error for an unsupported target. Decoding the manifest into `Master` needs all three keys, so a
  missing one, even one the user did not ask for, makes the `unwrap` at
  `src/main.rs:202` panic.
- The response's content length is only used to size the progress bar
  (`src/main.rs:127`). The code never compares it with the number of bytes
  received.
- Declining the default directory does not ask for another path. The
  tarball is downloaded and left in `/tmp/`, and the process exits with
  status 0.
- Errors from `utar_bin` are printed, and the process then ends with status 0.

## Model

| member | source | states |
|---|---|---|
| `Targets.MenusListDistinctLabels` | src/main.rs:20-75 | each menu's variant list contains every option, and options in the same menu have different labels |
| `Targets.ArchitectureLabelQuirk` | src/main.rs:68-90 | the x86_64 Mac label equals its release-index key; the Aarch64 label (`aarch64_macos`) differs from its key (`aarch64-macos`) |
| `Targets.Resolve` | src/main.rs:200-221 | a dispatch string selects a tarball exactly when it is `linux`, `arm` or `x86`, and the URL is then one of the manifest's three tarballs |
| `Targets.ResolveSelectsTargetTarball` | src/main.rs:203-218 | for every target `main` can pick, its dispatch string resolves to the tarball stored under that target's own release-index key (`x86_64-linux`, `aarch64-macos`, `x86_64-macos`) |
| `Targets.TargetsAreDistinguished` | src/main.rs:238-250 | different targets get different dispatch strings and different release-index keys, and every dispatch string `main` produces is one `get_latest` accepts |
| `Targets.Select` | src/main.rs:224-258 | the menus pick a target exactly when the user chose the Zig action and a system, and an architecture if the system is Mac; Linux gives the Linux target, and Mac gives the chosen architecture |
| `Streams.Taken` | src/main.rs:131-135 | the loop consumes the items before the first failed pull, in order and unchanged, and stops at that failure |
| `Streams.TakenStops` | src/main.rs:131-132 | nothing after the first failure is consumed |
| `Staging.Split` | src/main.rs:116-119 | a path splits into at least one segment, and no segment contains a slash |
| `Staging.JoinSplit` | src/main.rs:116-119 | joining a path's segments with slashes gives the path back |
| `Staging.SplitJoin` | src/main.rs:116-119 | splitting slash-free segments after joining them gives the same segments back |
| `Staging.LastSegmentIsSuffix` | src/main.rs:116-119 | the last segment is the text after the path's last slash, or the whole path when there is no slash |
| `Staging.StagedName` | src/main.rs:116-121 | the staging file name is never empty and never contains a slash |
| `Staging.StagedPath` | src/main.rs:110-123 | joining the name onto `/tmp/` adds no extra separator: the staged path is `/tmp/` followed by the name |
| `Staging.StagedNameIsFinalSegment` | src/main.rs:116-121 | when the URL path starts with a slash and does not end with one, the name is the text after its last slash; otherwise the name is `tmp.bin` |
| `Staging.StagedNameOf` | src/main.rs:116-123 | a file published as `dir/file` is staged as `/tmp/file` |
| `Download.ConcatLength` | src/main.rs:131-135 | the concatenated chunks are as long as the sum of the chunk lengths |
| `Download.ConcatPlacesChunk` | src/main.rs:131-135 | each chunk appears in the written bytes unchanged, right after the chunks that arrived before it |
| `Download.StagingWriter.CopyBody` | src/main.rs:130-135 | the writer's bytes grow by the chunks that arrived before the first failure, in order, and the counter grows by the sum of their lengths; the result says whether every chunk arrived |
| `Session.UnpacksAt` | src/main.rs:182-187 | the i-th unpack event is the i-th entry, unpacked into the install directory |
| `Session.MissingLengthStagesNothing` | src/main.rs:112-114 | a reply without a content length fails with the "Missing content lenght!" error, after the request and before any staging file is created |
| `Session.DownloadStagesBody` | src/main.rs:116-135 | the staging file is `/tmp/` plus the URL's staging name. It holds the chunks received before the first failure, in order, and its length is the sum of their lengths. The download succeeds exactly when no chunk fails, and otherwise fails with an HTTP error |
| `Session.DownloadShape` | src/main.rs:109-139 | a download records its request first, then at most the staging file and the completed download. A successful one records both, in that order, for the file it returns. A failed one never records a completed download: at most the staging file follows the request |
| `Session.ExtractCreatesOnlyMissingDir` | src/main.rs:166-189 | extraction succeeds exactly when the tarball opens, the directory exists or can be created, and every entry reads. If the tarball does not open or the directory cannot be made, nothing changes. Otherwise the only directory `extract_tarball` itself creates is the install path, and only when it was missing. It then unpacks the readable entries in archive order |
| `Session.ExtractEvents` | src/main.rs:171-187 | every event extraction adds either creates the missing install directory or unpacks an entry into it |
| `Session.UtarShape` | src/main.rs:141-152 | once the destination is answered, `utar_bin` either ends the process right after a declined, successful download, or returns with effects that do not end the process |
| `Session.AcceptShape` | src/main.rs:149-151 | after an accepted confirmation, `utar_bin` always returns. A failed download leaves only the download's effects. A successful one is followed by exactly the effects of extracting the staged file into `home + "/.zig/"` |
| `Session.DeclineShape` | src/main.rs:144-148 | after a declined confirmation the run downloads and then exits with status 0, after printing the error if the download failed |
| `Session.PickedTrace` | src/main.rs:200-221 | a picked target's run is `utar_bin` on that target's tarball, followed by the printed error, if any, and the exit from `main` |
| `Session.UnknownDispatchExitsOne` | src/main.rs:219 | a dispatch string other than `linux`, `arm` or `x86` ends the process with status 1, and no tarball is requested (the release index has already been fetched) |
| `Session.EveryRunExitsOnce` | src/main.rs:224-258 | every run ends with exactly one exit event, its last |
| `Session.MenusStopWithZero` | src/main.rs:225-256 | cancelling a menu or choosing Quit ends the run with status 0 and no other effect |
| `Session.CancelledConfirmExitsOne` | src/main.rs:154-164 | cancelling the confirmation ends the run with status 1 before anything is downloaded |
| `Session.OneUrlRequested` | src/main.rs:203-218 | a run that reaches the download requests exactly one tarball URL, the one stored under the picked target's key, as its first effect (`Requested` records tarball GETs only) |
| `Session.DecliningOnlyDownloads` | src/main.rs:144-148 | declining the default directory never creates a directory or unpacks an entry, and the run ends with status 0 |
| `Session.AcceptedUtarOrder` | src/main.rs:149-150 | after an accepted confirmation, every extraction event comes after the completed download and targets the install path |
| `Session.AcceptingExtractsAfterDownload` | src/main.rs:141-152 | accepting ends with status 0. Every directory creation or unpacked entry comes after the completed download and is in `home + "/.zig/"`, which is created only if it was missing |
| `Installer.Machine.DownloadTar` | src/main.rs:109-139 | the new trace, directories, files and result are exactly those `Session.DownloadEffect` gives for the old state |
| `Installer.Machine.WriteBody` | src/main.rs:123-135 | the staging file is created, or truncated, and then holds exactly the chunks received before the first failure; it reports whether the body was complete |
| `Installer.Machine.UnpackEntries` | src/main.rs:182-187 | the trace grows by one unpack event per readable entry, in archive order, up to the first unreadable one, and the result is an I/O error exactly when an entry fails |
| `Installer.Machine.ExtractTarball` | src/main.rs:166-190 | the new state and result are exactly those `Session.ExtractEffect` gives |
| `Installer.Machine.UtarBin` | src/main.rs:141-164 | the new state and outcome are exactly those `Session.UtarEffect` gives |
| `Installer.Machine.GetLatest` | src/main.rs:200-221 | the new state, and whether the process ended, are exactly those `Session.GetLatestEffect` gives |
| `Installer.Machine.Run` | src/main.rs:223-258 | the new state is exactly `Session.RunEffect` of the old one |

## Left out

- Fetching and decoding the release index (`src/main.rs:201-202`). The manifest is an already-parsed `Master`. A network or decode failure, including any of the three platform keys missing, makes `unwrap` panic. Panics are not modelled.
- `home_dir().unwrap()` (`src/main.rs:142`). The home directory is an input string, and its lossy UTF-8 conversion is not modelled.
- HTTP: the reply to a GET is an input, as a function of the URL. A reply is either unreachable or carries its final URL's path, an optional content length, and the body as chunks that may fail.
- `Url::path_segments` is modelled on the path string. Percent-encoding is kept as is. A path without a leading slash (a URL that cannot be a base) gives `tmp.bin`.
- `Path::join` (`Staging.JoinPath`) is modelled on strings: an absolute name replaces the base, and a relative one is appended with at most one separator. Path normalisation and non-UTF-8 paths are not modelled. The staging name never contains a slash, so only the relative case arises.
- Installer.Machine.WriteBody: a failing `write_all` (disk full, for example) is not modelled. Only failing chunks end the loop, and the bytes still buffered in the `BufWriter` are taken to reach the file when it is dropped.
- Download.StagingWriter.CopyBody: the progress counter is an unbounded `nat`, not `indicatif`'s `u64`. Wrap-around would need more than 2^64 bytes.
- xz decompression and tar parsing. The archive is an input list of entries, each a path or a failure. A failure stands for a failing `entry?`, `entry.path()?` or `unpack_in`, which all surface as `Error::Io`. What `unpack_in` writes (contents, modes, its handling of `..` paths) is not modelled. An unpacked entry is only an `Unpacked(dir, path)` event.
- Directories that `unpack_in` creates, for directory entries and for missing parents, are not added to the host's directory set. Each entry is only an `Unpacked` event.
- `try_exists` is membership in the host's directory set, and its permission errors are not modelled. Whether `File::create` and `fs::create_dir` succeed is an input. `File::open` of the tarball fails exactly when no such file exists.
- Progress bars, spinners and the `OnceCell` style singleton (`src/main.rs:127-128`, `175-180`, `192-198`). They are write-only telemetry.
- Printed text: the "You can find tar in /tmp/ then" message, and the error's `Display` text (an error report is the `Reported(error)` event).
- Prompt rendering: page size, help message, and the confirmation's default of `true`. Each prompt is reduced to its answer.
- The `tokio` runtime and the durability of writes. The model is single-threaded and sequential, as the program's flow is.
