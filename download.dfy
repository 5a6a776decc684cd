/**
 * The body loop of `download_tar`: each chunk that arrives advances the
 * progress counter by its length and is written to the buffered staging
 * file; the first failed chunk ends the loop.
 */
module Download {
  import opened Streams

  /** One pull from the response body stream. */
  type Chunk = Next<seq<bv8>>

  /** The chunks one after the other, in arrival order. */
  function Concat(parts: seq<seq<bv8>>): seq<bv8>
  {
    if parts == [] then [] else Concat(parts[..|parts| - 1]) + parts[|parts| - 1]
  }

  /** The sum of the chunk lengths. */
  function TotalLength(parts: seq<seq<bv8>>): nat
  {
    if parts == [] then 0 else TotalLength(parts[..|parts| - 1]) + |parts[|parts| - 1]|
  }

  /** The bytes written are as many as the sum of the chunk lengths. */
  lemma {:induction false} ConcatLength(parts: seq<seq<bv8>>)
    ensures |Concat(parts)| == TotalLength(parts)
  {
    if parts != [] {
      ConcatLength(parts[..|parts| - 1]);
    }
  }

  /** Chunk `k` sits in the concatenation right after the chunks before it. */
  lemma {:induction false} ConcatPlacesChunk(parts: seq<seq<bv8>>, k: nat)
    requires k < |parts|
    ensures TotalLength(parts[..k]) + |parts[k]| <= |Concat(parts)|
    ensures Concat(parts)[TotalLength(parts[..k])..TotalLength(parts[..k]) + |parts[k]|] == parts[k]
  {
    var n := |parts| - 1;
    var init := parts[..n];
    ConcatLength(parts);
    ConcatLength(init);
    if k == n {
      assert parts[..k] == init;
    } else {
      ConcatPlacesChunk(init, k);
      assert init[..k] == parts[..k];
      assert Concat(parts) == Concat(init) + parts[n];
      assert Concat(parts)[..|Concat(init)|] == Concat(init);
    }
  }

  /** Taking one more good chunk appends it to the content and adds its length to the count. */
  lemma TakeChunk(body: seq<Chunk>, i: nat)
    requires i < |body| && Intact(body[..i]) && body[i].Item?
    ensures Intact(body[..i + 1])
    ensures Concat(Taken(body[..i + 1])) == Concat(Taken(body[..i])) + body[i].value
    ensures TotalLength(Taken(body[..i + 1])) == TotalLength(Taken(body[..i])) + |body[i].value|
  {
    TakenStep(body, i);
    var taken := Taken(body[..i + 1]);
    assert taken[..|taken| - 1] == Taken(body[..i]);
  }

  /** The buffered destination file and the progress bar of one download. */
  class StagingWriter {
    /** Bytes handed to `dest.write_all`, in order. */
    var dest: seq<bv8>
    /** Position of the progress bar (`pb.inc`). */
    var progress: nat

    constructor ()
      ensures dest == [] && progress == 0
    {
      dest := [];
      progress := 0;
    }

    /**
     * The `while let` loop: writes the chunks that arrive before the first
     * failure, counts their bytes, and reports whether the body was complete.
     */
    method CopyBody(body: seq<Chunk>) returns (complete: bool)
      modifies this
      ensures complete == Intact(body)
      ensures dest == old(dest) + Concat(Taken(body))
      ensures progress == old(progress) + TotalLength(Taken(body))
    {
      var i := 0;
      while i < |body|
        invariant 0 <= i <= |body|
        invariant Intact(body[..i])
        invariant dest == old(dest) + Concat(Taken(body[..i]))
        invariant progress == old(progress) + TotalLength(Taken(body[..i]))
      {
        if body[i].Broken? {
          TakenStops(body, i);
          return false;
        }
        var chunk := body[i].value;
        TakeChunk(body, i);
        progress := progress + |chunk|;
        dest := dest + chunk;
        i := i + 1;
      }
      assert body[..i] == body;
      complete := true;
    }
  }
}
