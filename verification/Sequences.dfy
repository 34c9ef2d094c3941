/** Taking one element out of a sequence. */
module Sequences {

  function Remove<T>(s: seq<T>, i: nat): (r: seq<T>)
    requires i < |s|
    ensures |r| == |s| - 1
  {
    seq(|s| - 1, k requires 0 <= k < |s| - 1 => if k < i then s[k] else s[k + 1])
  }
}
