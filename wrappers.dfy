/** Failure-compatible wrappers used across the model. */
module Wrappers {

  /** A value that may be absent: a missing JSON key, a parse that failed. */
  datatype Option<+T> = None | Some(value: T) {
    function GetOr(default: T): T {
      match this
      case Some(v) => v
      case None => default
    }
  }

  /** The outcome of an operation that may raise. */
  datatype Result<+R, +E> = Success(value: R) | Failure(error: E)

  /** f applied to each element in order, stopping at the first failure. */
  function MapResults<A, B, E>(f: A -> Result<B, E>, s: seq<A>): (r: Result<seq<B>, E>)
    ensures r.Success? ==> |r.value| == |s|
  {
    if s == [] then Success([])
    else
      match MapResults(f, s[..|s| - 1])
      case Failure(e) => Failure(e)
      case Success(bs) =>
        match f(s[|s| - 1])
        case Failure(e) => Failure(e)
        case Success(b) => Success(bs + [b])
  }

  /** Once a prefix fails, the whole sequence fails the same way. */
  lemma {:induction false} MapResultsFailureSticks<A, B, E>(f: A -> Result<B, E>, s: seq<A>, n: nat)
    requires n <= |s| && MapResults(f, s[..n]).Failure?
    ensures MapResults(f, s) == MapResults(f, s[..n])
    decreases |s| - n
  {
    if n < |s| {
      assert s[..n + 1][..n] == s[..n];
      MapResultsFailureSticks(f, s, n + 1);
    } else {
      assert s[..n] == s;
    }
  }

  /** A success holds f's value for every element. */
  lemma {:induction false} MapResultsAt<A, B, E>(f: A -> Result<B, E>, s: seq<A>)
    requires MapResults(f, s).Success?
    ensures forall k :: 0 <= k < |s| ==> f(s[k]).Success? && MapResults(f, s).value[k] == f(s[k]).value
  {
    if s != [] {
      var init := s[..|s| - 1];
      MapResultsAt(f, init);
      assert forall k :: 0 <= k < |init| ==> init[k] == s[k];
    }
  }

  /** The mapping fails exactly when f fails on some element. */
  lemma {:induction false} MapResultsFailIff<A, B, E>(f: A -> Result<B, E>, s: seq<A>)
    ensures MapResults(f, s).Failure? <==> exists k :: 0 <= k < |s| && f(s[k]).Failure?
  {
    if s != [] {
      var init := s[..|s| - 1];
      MapResultsFailIff(f, init);
      assert forall k :: 0 <= k < |init| ==> init[k] == s[k];
    }
  }
}
