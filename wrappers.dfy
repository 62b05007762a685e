/** Failure-compatible result type used for the lookup's exceptions. */
module Wrappers {

  datatype Option<+T> = None | Some(value: T)

  datatype Result<+R, +E> = Success(value: R) | Failure(error: E)

  /** One more element in front of a list that is built until the first
      failure: the first failure, if any, is the outcome. */
  function Prepend<T, E>(head: Result<T, E>, tail: Result<seq<T>, E>): (r: Result<seq<T>, E>)
  {
    match head
    case Failure(err) => Failure(err)
    case Success(x) =>
      match tail
      case Failure(err) => Failure(err)
      case Success(xs) => Success([x] + xs)
  }

  /** Elements already built, in front of the outcome for the rest. */
  function Prefixed<T, E>(done: seq<T>, rest: Result<seq<T>, E>): (r: Result<seq<T>, E>)
  {
    match rest
    case Success(xs) => Success(done + xs)
    case Failure(err) => Failure(err)
  }

  /** A loop that builds a list until the first failure takes one step:
      a failing element ends with its error, a successful one joins the
      elements already built. */
  lemma PrefixedStep<T, E>(done: seq<T>, head: Result<T, E>, tail: Result<seq<T>, E>)
    ensures head.Failure? ==> Prefixed(done, Prepend(head, tail)) == Failure(head.error)
    ensures head.Success? ==> Prefixed(done, Prepend(head, tail)) == Prefixed(done + [head.value], tail)
  {
    if head.Success? && tail.Success? {
      assert done + ([head.value] + tail.value) == (done + [head.value]) + tail.value;
    }
  }

  /** Such a loop starts with nothing built and ends with nothing left. */
  lemma PrefixedEnds<T, E>(done: seq<T>, rest: Result<seq<T>, E>)
    ensures Prefixed([], rest) == rest
    ensures Prefixed<T, E>(done, Success([])) == Success(done)
  {
    assert done + [] == done;
    if rest.Success? {
      assert [] + rest.value == rest.value;
    }
  }
}
