/** Package `function`: generic helpers over slices. A Go slice that may be
    nil is an `Option<seq<T>>`, nil being `None`. */
module Functions {
  import opened Wrappers

  /** `Map`: nil stays nil; otherwise a fresh slice of the same length whose
      i-th element is the callback applied to the i-th input. */
  method Map<T, R(0)>(iterable: Option<seq<T>>, callback: T -> R) returns (r: Option<seq<R>>)
    ensures iterable.None? <==> r.None?
    ensures iterable.Some? ==>
              |r.value| == |iterable.value|
              && forall i :: 0 <= i < |iterable.value| ==> r.value[i] == callback(iterable.value[i])
  {
    if iterable.None? {
      return None;
    }
    var items := iterable.value;
    var output := new R[|items|];
    for i := 0 to |items|
      invariant forall j :: 0 <= j < i ==> output[j] == callback(items[j])
    {
      output[i] := callback(items[i]);
    }
    return Some(output[..]);
  }

  /** An empty but non-nil input gives an empty non-nil output. */
  method MapEmpty<T, R(0)>(callback: T -> R) returns (r: Option<seq<R>>)
    ensures r == Some([])
  {
    r := Map(Some([]), callback);
  }

  /** The effect of running callbacks in order: each call turns the state it
      finds into the next one. */
  function Fold<S, T>(s: S, items: seq<T>, callback: (S, T) -> S): S {
    if items == [] then s else callback(Fold(s, items[..|items| - 1], callback), items[|items| - 1])
  }

  /** `ForEach`: the callback runs once on every element, in index order; its
      side effect is modelled as the state it threads. */
  method ForEach<S, T>(iterable: seq<T>, callback: (S, T) -> S, s0: S) returns (s: S)
    ensures s == Fold(s0, iterable, callback)
  {
    s := s0;
    for i := 0 to |iterable|
      invariant s == Fold(s0, iterable[..i], callback)
    {
      assert iterable[..i + 1][..i] == iterable[..i];
      s := callback(s, iterable[i]);
    }
    assert iterable[..|iterable|] == iterable;
  }

  /** Running over `a + b` is running over `a`, then over `b` from where
      `a` left off: the calls happen in index order. */
  lemma {:induction false} FoldAppend<S, T>(s: S, a: seq<T>, b: seq<T>, callback: (S, T) -> S)
    ensures Fold(s, a + b, callback) == Fold(Fold(s, a, callback), b, callback)
  {
    if b == [] {
      assert a + b == a;
    } else {
      var n := |b| - 1;
      assert (a + b)[..|a + b| - 1] == a + b[..n];
      assert (a + b)[|a + b| - 1] == b[n];
      FoldAppend(s, a, b[..n], callback);
    }
  }

  /** A callback that records what it is given sees every element exactly
      once, in order. */
  lemma {:induction false} ForEachVisitsInOrder<T>(items: seq<T>)
    ensures Fold([], items, Record) == items
  {
    if items != [] {
      ForEachVisitsInOrder(items[..|items| - 1]);
      DropLast(items);
    }
  }

  /** A callback that appends each element it is given to a log. */
  function Record<T>(log: seq<T>, x: T): seq<T> {
    log + [x]
  }
}
