/** Small vocabulary for the JavaScript values the route engine works with. */
module Js {

  /** A property that is either `undefined`, `null` or a string (highway, surface and tracktype tags). */
  datatype Tag = Undefined | Null | Str(s: string) {

    /** The loose comparison `x == null`, which holds of both `undefined` and `null`. */
    predicate IsNullish() {
      Undefined? || Null?
    }
  }

  /** `undefined` or a present value. */
  datatype Option<T> = None | Some(value: T)

  /** A double that is either finite or the NaN that `0 / 0` produces. */
  datatype Number = Finite(value: real) | NaN

  /** The property name a value becomes when it is used as an object key (`obj[undefined]` is `obj["undefined"]`). */
  function KeyOf(t: Tag): string {
    match t
    case Undefined => "undefined"
    case Null => "null"
    case Str(s) => s
  }

  /** `Math.round` for finite arguments: the nearest integer, halves rounded up. */
  function Round(x: real): (n: int)
    ensures x - 0.5 < n as real <= x + 0.5
  {
    (x + 0.5).Floor
  }

  lemma RoundOfInteger(n: int)
    ensures Round(n as real) == n
  {
  }

  lemma RoundMonotone(x: real, y: real)
    requires x <= y
    ensures Round(x) <= Round(y)
  {
  }

  function Abs(x: real): (r: real)
    ensures r >= 0.0 && (r == x || r == -x)
  {
    if x < 0.0 then -x else x
  }

  function Min(x: real, y: real): (r: real)
    ensures r <= x && r <= y && (r == x || r == y)
  {
    if x <= y then x else y
  }

  function Max(x: real, y: real): (r: real)
    ensures r >= x && r >= y && (r == x || r == y)
  {
    if x >= y then x else y
  }

  /** The sum of `xs`, accumulated from the left as the source's loops do. */
  function Sum(xs: seq<real>): real {
    if |xs| == 0 then 0.0 else Sum(xs[..|xs| - 1]) + xs[|xs| - 1]
  }

  /** `Array.prototype.reverse`, as a function of the array's contents. */
  function Reverse<T>(s: seq<T>): seq<T> {
    seq(|s|, i requires 0 <= i < |s| => s[|s| - 1 - i])
  }

  /** A prefix one longer is the shorter prefix and the next element. */
  lemma TakeSnoc<T>(s: seq<T>, k: int)
    requires 0 < k <= |s|
    ensures s[..k] == s[..k - 1] + [s[k - 1]]
  {
  }

  lemma ReverseReverse<T>(s: seq<T>)
    ensures Reverse(Reverse(s)) == s
  {
  }
}
