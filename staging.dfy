/**
 * Where `download_tar` stages a tarball: the last segment of the response
 * URL's path, or "tmp.bin" when that segment is empty, joined onto "/tmp/".
 */
module Staging {
  import opened Results

  const StagingDir: string := "/tmp/"
  const FallbackName: string := "tmp.bin"

  /** The pieces of `s` between slashes; an empty piece where two slashes meet or at either end. */
  function Split(s: string): (segments: seq<string>)
    ensures |segments| >= 1
    ensures forall i :: 0 <= i < |segments| ==> '/' !in segments[i]
  {
    if s == [] then [""]
    else
      var rest := Split(s[1..]);
      if s[0] == '/' then [""] + rest
      else [[s[0]] + rest[0]] + rest[1..]
  }

  /** Puts the segments back together with a slash between each two. */
  function Join(segments: seq<string>): string
    requires |segments| >= 1
  {
    if |segments| == 1 then segments[0] else segments[0] + "/" + Join(segments[1..])
  }

  /** Splitting loses nothing: joining the segments gives the string back. */
  lemma {:induction false} JoinSplit(s: string)
    ensures Join(Split(s)) == s
  {
    if s != [] {
      var rest := Split(s[1..]);
      JoinSplit(s[1..]);
      if s[0] == '/' {
        assert Split(s)[1..] == rest;
      } else if |rest| > 1 {
        assert Split(s)[1..] == rest[1..];
        assert Join(rest) == rest[0] + "/" + Join(rest[1..]);
      }
    }
  }

  /** A slash in `a + "/" + b` separates the segments of `a` from those of `b`. */
  lemma {:induction false} SplitAtSlash(a: string, b: string)
    ensures Split(a + "/" + b) == Split(a) + Split(b)
  {
    if a != [] {
      assert (a + "/" + b)[1..] == a[1..] + "/" + b;
      SplitAtSlash(a[1..], b);
    } else {
      assert (a + "/" + b)[1..] == b;
    }
  }

  /** A string without slashes is one segment. */
  lemma {:induction false} SplitNoSlash(s: string)
    requires '/' !in s
    ensures Split(s) == [s]
  {
    if s != [] {
      assert s[0] != '/';
      assert forall c :: c in s[1..] ==> c in s;
      SplitNoSlash(s[1..]);
      assert [s[0]] + s[1..] == s;
    }
  }

  /** Joining slash-free segments and splitting again gives the segments back. */
  lemma {:induction false} SplitJoin(segments: seq<string>)
    requires |segments| >= 1
    requires forall i :: 0 <= i < |segments| ==> '/' !in segments[i]
    ensures Split(Join(segments)) == segments
  {
    SplitNoSlash(segments[0]);
    if |segments| > 1 {
      SplitJoin(segments[1..]);
      SplitAtSlash(segments[0], Join(segments[1..]));
      assert [segments[0]] + segments[1..] == segments;
    }
  }

  /** The last segment of `s`. */
  function LastSegment(s: string): string
  {
    var segments := Split(s);
    segments[|segments| - 1]
  }

  /**
   * The last segment is the suffix of `s` after its last slash: the whole of
   * `s` when there is one segment, otherwise a slash stands just before it.
   */
  lemma {:induction false} LastSegmentIsSuffix(s: string)
    ensures var last := LastSegment(s);
      |last| <= |s| && s[|s| - |last|..] == last &&
      (|Split(s)| == 1 ==> last == s) &&
      (|Split(s)| > 1 ==> |last| < |s| && s[|s| - |last| - 1] == '/')
  {
    if s != [] {
      LastSegmentIsSuffix(s[1..]);
      var rest := Split(s[1..]);
      assert s[|s| - |LastSegment(s[1..])|..] == s[1..][|s[1..]| - |LastSegment(s[1..])|..];
      if s[0] == '/' {
        assert LastSegment(s) == LastSegment(s[1..]);
      } else if |rest| == 1 {
        assert LastSegment(s) == [s[0]] + s[1..] == s;
      } else {
        assert LastSegment(s) == LastSegment(s[1..]);
      }
    }
  }

  /**
   * `Url::path_segments`: the path split at slashes after its leading slash;
   * no segments for a path without one (a URL that cannot be a base).
   */
  function PathSegments(urlPath: string): Option<seq<string>>
  {
    if |urlPath| > 0 && urlPath[0] == '/' then Some(Split(urlPath[1..])) else None
  }

  /** The staging file name: the last path segment unless it is empty, else "tmp.bin". */
  function StagedName(urlPath: string): (name: string)
    ensures name != [] && '/' !in name
  {
    match PathSegments(urlPath)
    case Some(segments) =>
      var last := segments[|segments| - 1];
      if last != [] then last else FallbackName
    case None => FallbackName
  }

  /**
   * `Path::join`: an absolute name replaces the base; a relative one is
   * appended, with a separator unless the base already ends with one.
   */
  function JoinPath(base: string, name: string): string
  {
    if |name| > 0 && name[0] == '/' then name
    else if |base| > 0 && base[|base| - 1] == '/' then base + name
    else base + "/" + name
  }

  /** Where the tarball fetched from a URL with this path is written. */
  function StagedPath(urlPath: string): (path: string)
    ensures path == StagingDir + StagedName(urlPath)
  {
    JoinPath(StagingDir, StagedName(urlPath))
  }

  /**
   * The staged name is the URL path's final segment, that is the text after
   * its last slash, whenever the path starts with a slash and does not end
   * with one; otherwise it is "tmp.bin".
   */
  lemma StagedNameIsFinalSegment(urlPath: string)
    ensures var name := StagedName(urlPath);
      if |urlPath| > 0 && urlPath[0] == '/' && urlPath[|urlPath| - 1] != '/' then
        |name| < |urlPath| && urlPath[|urlPath| - |name|..] == name &&
        urlPath[|urlPath| - |name| - 1] == '/'
      else name == FallbackName
  {
    if |urlPath| > 0 && urlPath[0] == '/' {
      var s := urlPath[1..];
      LastSegmentIsSuffix(s);
      var last := LastSegment(s);
      if urlPath[|urlPath| - 1] != '/' {
        assert s != [] && s[|s| - 1] != '/';
        assert last != [];
        assert urlPath[|urlPath| - |last|..] == s[|s| - |last|..];
        if |last| < |s| {
          assert urlPath[|urlPath| - |last| - 1] == s[|s| - |last| - 1];
        }
      } else if s != [] {
        assert s[|s| - 1] == '/';
      }
    }
  }

  /**
   * A tarball published under a directory URL path `dir` as `file` is staged
   * as `/tmp/` followed by `file`.
   */
  lemma StagedNameOf(dir: string, file: string)
    requires |dir| > 0 && dir[0] == '/' && dir[|dir| - 1] == '/'
    requires file != [] && '/' !in file
    ensures StagedName(dir + file) == file
    ensures StagedPath(dir + file) == StagingDir + file
  {
    var p := dir + file;
    var name := StagedName(p);
    assert p[|p| - 1] == file[|file| - 1];
    StagedNameIsFinalSegment(p);
    assert p[|dir|..] == file;
    assert name == p[|p| - |name|..] == file;
  }
}
