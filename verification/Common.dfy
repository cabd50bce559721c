/** Shared small things: an optional value, and the last element of a kind in a sequence. */
module Common {
  datatype Option<T> = None | Some(value: T)

  /** Index behind the last element that satisfies p, or 0. */
  function BehindLast<T>(q: seq<T>, p: T -> bool): (i: nat)
    ensures i <= |q| && (i > 0 ==> p(q[i - 1]))
    ensures forall j :: i <= j < |q| ==> !p(q[j])
  {
    if q == [] then 0 else if p(q[|q| - 1]) then |q| else BehindLast(q[..|q| - 1], p)
  }
}
