/** Runs of backticks, which both printers and CommonMark count. */
module Backticks {

  const TICK := '`'

  /** How many backticks stand at `i`. */
  function TicksAt(s: string, i: nat): (n: nat)
    requires i <= |s|
    ensures i + n <= |s| && (forall k | i <= k < i + n :: s[k] == TICK) && (i + n < |s| ==> s[i + n] != TICK)
    decreases |s| - i
  {
    if i == |s| || s[i] != TICK then 0 else 1 + TicksAt(s, i + 1)
  }

  predicate AllTicks(s: string) {
    forall i | 0 <= i < |s| :: s[i] == TICK
  }

  function Ticks(n: nat): (s: string)
    ensures |s| == n && AllTicks(s)
  {
    if n == 0 then "" else Ticks(n - 1) + [TICK]
  }
}
