/** Order-keeping selection from a sequence and first positions, used
    wherever the modelled code walks a list. */
module Sequences {
  /** The entries of `s` that `keep` accepts, in the order of `s`. */
  function Filter<T(!new)>(s: seq<T>, keep: T -> bool): (out: seq<T>)
    ensures forall x :: x in out <==> x in s && keep(x)
    ensures forall i :: 0 <= i < |out| ==> keep(out[i])
    ensures |out| <= |s|
  {
    if |s| == 0 then []
    else (if keep(s[0]) then [s[0]] else []) + Filter(s[1..], keep)
  }

  /** Position of the first occurrence of `x` in `s`. */
  function PositionIn<T(==)>(s: seq<T>, x: T): (k: nat)
    requires x in s
    ensures k < |s| && s[k] == x
  {
    if s[0] == x then 0 else 1 + PositionIn(s[1..], x)
  }
}
