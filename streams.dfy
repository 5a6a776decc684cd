/**
 * Fallible streams consumed by a loop that stops at the first failure, as
 * `while let Some(chunk) = stream.next() { let chunk = chunk?; ... }` and
 * `for entry in entries { let entry = entry?; ... }` do.
 */
module Streams {

  /** One pull from a fallible stream: the next item, or an error. */
  datatype Next<T> = Item(value: T) | Broken

  /** No pull of the stream fails. */
  predicate Intact<T>(s: seq<Next<T>>)
  {
    forall i :: 0 <= i < |s| ==> s[i].Item?
  }

  /**
   * The items a `?`-propagating loop consumes: every item before the first
   * failed pull, in arrival order, and nothing after it.
   */
  function Taken<T>(s: seq<Next<T>>): (r: seq<T>)
    ensures |r| <= |s|
    ensures forall i :: 0 <= i < |r| ==> s[i] == Item(r[i])
    ensures |r| == |s| || s[|r|] == Broken
  {
    if s == [] || s[0].Broken? then [] else [s[0].value] + Taken(s[1..])
  }

  /** The contract of `Taken` determines its result. */
  lemma TakenUnique<T>(s: seq<Next<T>>, r: seq<T>)
    requires |r| <= |s|
    requires forall i :: 0 <= i < |r| ==> s[i] == Item(r[i])
    requires |r| == |s| || s[|r|] == Broken
    ensures Taken(s) == r
  {
    var t := Taken(s);
    assert |t| == |r|;
    forall i | 0 <= i < |r| ensures t[i] == r[i] {
      assert s[i] == Item(t[i]);
    }
  }

  /** All items are taken exactly when no pull fails. */
  lemma TakenAll<T>(s: seq<Next<T>>)
    ensures |Taken(s)| == |s| <==> Intact(s)
  {
    if |Taken(s)| < |s| {
      assert s[|Taken(s)|] == Broken;
    }
  }

  /** Appending a good item to an intact stream extends what is taken by that item. */
  lemma TakenExtend<T>(s: seq<Next<T>>, x: T)
    requires Intact(s)
    ensures Taken(s + [Item(x)]) == Taken(s) + [x]
  {
    TakenAll(s);
    TakenUnique(s + [Item(x)], Taken(s) + [x]);
  }

  /** One more good item, after good items only, is taken next. */
  lemma TakenStep<T>(s: seq<Next<T>>, i: nat)
    requires i < |s| && Intact(s[..i]) && s[i].Item?
    ensures Intact(s[..i + 1])
    ensures Taken(s[..i + 1]) == Taken(s[..i]) + [s[i].value]
  {
    assert s[..i + 1] == s[..i] + [Item(s[i].value)];
    TakenExtend(s[..i], s[i].value);
  }

  /** Nothing after the first failure is taken. */
  lemma TakenStops<T>(s: seq<Next<T>>, k: nat)
    requires k < |s| && Intact(s[..k]) && s[k] == Broken
    ensures Taken(s) == Taken(s[..k])
  {
    TakenAll(s[..k]);
    TakenUnique(s, Taken(s[..k]));
  }
}
