/** numpy's boolean-mask assignment, `dst[mask] = f[mask]`, the one in-place
    operation the colour-space conversions and range remappings are built
    from. The mask and the new values are computed per element from a
    source array and the element's current value, so one primitive covers
    `h[r == c_max] = …`, `delta[delta == 0] = -1` and `result += m`. */
module Masks {

  /** Every element the mask selects is replaced by f of it; every other
      element keeps its value. */
  method MaskedUpdate<T>(dst: array<real>, src: seq<T>, mask: (T, real) -> bool, f: (T, real) --> real)
    requires |src| == dst.Length
    requires forall n :: 0 <= n < |src| && mask(src[n], dst[n]) ==> f.requires(src[n], dst[n])
    modifies dst
    ensures forall n :: 0 <= n < dst.Length ==>
      dst[n] == if mask(src[n], old(dst[n])) then f(src[n], old(dst[n])) else old(dst[n])
  {
    var n := 0;
    while n < dst.Length
      invariant 0 <= n <= dst.Length
      invariant forall k :: 0 <= k < n ==>
        dst[k] == if mask(src[k], old(dst[k])) then f(src[k], old(dst[k])) else old(dst[k])
      invariant forall k :: n <= k < dst.Length ==> dst[k] == old(dst[k])
    {
      if mask(src[n], dst[n]) {
        dst[n] := f(src[n], dst[n]);
      }
      n := n + 1;
    }
  }
}
