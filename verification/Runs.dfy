/** A fact about runs of any system. */
module Runs {

  /** A flag that some steps set and others clear is set exactly if one that set it was not followed by
      one that cleared it. */
  lemma {:induction false} Latch(flag: seq<bool>, sets: seq<bool>, clears: seq<bool>, n: nat)
    requires |sets| == |clears| && |flag| == |sets| + 1 && n <= |sets|
    requires !flag[0] && forall i :: 0 <= i < |sets| ==> (flag[i + 1] <==> sets[i] || (flag[i] && !clears[i]))
    ensures flag[n] <==> exists i :: 0 <= i < n && sets[i] && forall j :: i < j < n ==> !clears[j]
  {
    if n > 0 {
      Latch(flag, sets, clears, n - 1);
      assert flag[n - 1 + 1] <==> sets[n - 1] || (flag[n - 1] && !clears[n - 1]);
    }
  }
}
