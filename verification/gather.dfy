/**
 * The shape shared by the scripts' loops over a parsed list: each element
 * contributes a list of results, in order, and the whole loop gives up
 * (the enclosing `try` returns its fallback) as soon as one element
 * raises.
 */
module Gathering {
  import opened Wrappers

  /** The results `part` gives for `xs`, concatenated in order; `None` once
      an element raises. */
  function Gather<X, Y>(xs: seq<X>, part: X -> Option<seq<Y>>): Option<seq<Y>>
    decreases |xs|
  {
    if xs == [] then Some([])
    else
      var n := |xs| - 1;
      var done := Gather(xs[..n], part);
      var more := part(xs[n]);
      if done.Some? && more.Some? then Some(done.value + more.value) else None
  }

  /** One more element: the prefix's result extended by the element's part. */
  lemma GatherNext<X, Y>(xs: seq<X>, part: X -> Option<seq<Y>>, j: nat, done: seq<Y>, more: seq<Y>)
    requires j < |xs| && Gather(xs[..j], part) == Some(done) && part(xs[j]) == Some(more)
    ensures Gather(xs[..j + 1], part) == Some(done + more)
  {
    assert xs[..j + 1][..j] == xs[..j];
  }

  /** An element whose part raises makes the whole loop raise. */
  lemma GatherFailsAt<X, Y>(xs: seq<X>, part: X -> Option<seq<Y>>, j: nat)
    requires j < |xs| && part(xs[j]) == None
    ensures Gather(xs, part) == None
  {
    assert xs[..j + 1][..j] == xs[..j];
    GatherNoneSticks(xs, part, j + 1);
  }

  /** Once a prefix has raised, the whole loop has. */
  lemma {:induction false} GatherNoneSticks<X, Y>(xs: seq<X>, part: X -> Option<seq<Y>>, k: nat)
    requires k <= |xs| && Gather(xs[..k], part) == None
    ensures Gather(xs, part) == None
    decreases |xs| - k
  {
    if k < |xs| {
      assert xs[..k + 1][..k] == xs[..k];
      GatherNoneSticks(xs, part, k + 1);
    } else {
      assert xs[..k] == xs;
    }
  }

  /** The loop over a concatenation: the results of the first list, then
      those of the second; a raise in either fails the whole. */
  lemma {:induction false} GatherAppend<X, Y>(a: seq<X>, b: seq<X>, part: X -> Option<seq<Y>>)
    ensures Gather(a + b, part) ==
            match (Gather(a, part), Gather(b, part))
            case (Some(x), Some(y)) => Some(x + y)
            case _ => None
    decreases |b|
  {
    if b == [] {
      assert a + b == a;
      if Gather(a, part).Some? {
        assert Gather(a, part).value + [] == Gather(a, part).value;
      }
    } else {
      var n := |b| - 1;
      GatherAppend(a, b[..n], part);
      assert (a + b)[..|a| + n] == a + b[..n];
      assert (a + b)[|a| + n] == b[n];
      if Gather(a, part).Some? && Gather(b[..n], part).Some? && part(b[n]).Some? {
        var x, y, m := Gather(a, part).value, Gather(b[..n], part).value, part(b[n]).value;
        assert x + y + m == x + (y + m);
      }
    }
  }

  /** The loop fails exactly when some element raises; when it succeeds,
      every result comes from some element, and every element's results
      are among them. */
  lemma {:induction false} GatherExact<X, Y>(xs: seq<X>, part: X -> Option<seq<Y>>, y: Y)
    ensures Gather(xs, part).None? <==> exists i | 0 <= i < |xs| :: part(xs[i]).None?
    ensures Gather(xs, part).Some? ==>
              (y in Gather(xs, part).value <==> exists i | 0 <= i < |xs| :: y in part(xs[i]).value)
    decreases |xs|
  {
    if xs != [] {
      var n := |xs| - 1;
      GatherExact(xs[..n], part, y);
      assert forall i | 0 <= i < n :: xs[..n][i] == xs[i];
    }
  }
}
