/** Outcome types shared by the whole model.

    The solver reports every violated invariant through FatalError, which
    prints a message and ends the process. The model makes that exit an
    explicit value: an operation that can fail returns a Status or a Result
    whose failure case carries the message the solver would print. */
module Common {

  /** A value that may be absent (a checked access that failed). */
  datatype Option<T> = None | Some(value: T)

  /** The outcome of an operation that only changes state. */
  datatype Status = Done | Fatal(reason: string)

  /** The outcome of an operation that produces a value. */
  datatype Result<T> = Ok(value: T) | Error(reason: string)

  /** Absolute value, as std::abs on a double. */
  function Abs(x: real): (r: real)
    ensures r >= 0.0
    ensures r == x || r == -x
  {
    if x < 0.0 then -x else x
  }

  /** std::vector::resize: the first n entries of s are kept and a longer
      vector is padded with fill. */
  function Resize<T>(s: seq<T>, n: nat, fill: T): (r: seq<T>)
    ensures |r| == n
    ensures forall k :: 0 <= k < n ==> r[k] == if k < |s| then s[k] else fill
  {
    seq(n, k requires 0 <= k < n => if k < |s| then s[k] else fill)
  }

  /** The larger of two values, as std::max. */
  function Max(a: real, b: real): (r: real)
    ensures r >= a && r >= b
    ensures r == a || r == b
  {
    if a < b then b else a
  }
}
