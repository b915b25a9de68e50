/**
 * The "direction" branch of `TodoReviewResultsCommand.run` (plugin/TodoReview.py:396-420):
 * moving the stored selection over the `n` result regions of the report.
 */
module Navigation {
  import opened Common

  /** The `direction` argument. */
  datatype Direction = Down | Up | DownSkip | UpSkip

  /** `start_arr`: the selection assumed when none is stored. */
  function Start(d: Direction): int {
    match d
    case Down => -1
    case Up => 0
    case DownSkip => -1
    case UpSkip => 0
  }

  /** `dir_arr`: the step, with the configured forward and backward skips. */
  function Step(d: Direction, forwardSkip: int, backwardSkip: int): int {
    match d
    case Down => 1
    case Up => -1
    case DownSkip => forwardSkip
    case UpSkip => backwardSkip * -1
  }

  /**
   * The new selection over `n` regions from the stored one (None when nothing is stored),
   * or None when there are no regions and the command does nothing. The three tests run
   * one after the other, as in the code: exactly -1 wraps to the last region, anything
   * else below 0 goes to the first, and anything past the end wraps to the first.
   */
  function Move(stored: Option<int>, d: Direction, n: nat, forwardSkip: int, backwardSkip: int): (r: Option<int>)
    ensures r.Some? <==> n > 0
    ensures r.Some? ==> 0 <= r.value < n
  {
    if n == 0 then None
    else
      var sel := (if stored.Some? then stored.value else Start(d)) + Step(d, forwardSkip, backwardSkip);
      var sel := if sel == -1 then n - 1 else sel;
      var sel := if sel < 0 then 0 else sel;
      var sel := if sel >= n then 0 else sel;
      Some(sel)
  }

  /** The target of a move, stated as one case split on the raw sum. */
  function Target(sum: int, n: nat): int {
    if sum == -1 then n - 1 else if 0 <= sum < n then sum else 0
  }

  /** The three sequential tests agree with the one case split. */
  lemma MoveIsTarget(stored: Option<int>, d: Direction, n: nat, forwardSkip: int, backwardSkip: int)
    requires n > 0
    ensures Move(stored, d, n, forwardSkip, backwardSkip) ==
      Some(Target((if stored.Some? then stored.value else Start(d)) + Step(d, forwardSkip, backwardSkip), n))
  {
  }

  /**
   * From no stored selection, "down" selects the first region and "up" the last, while
   * "up_skip" with a positive skip selects the first, since the sum falls below -1.
   */
  lemma MoveFromNothing(n: nat, forwardSkip: int, backwardSkip: int)
    requires n > 0
    ensures Move(None, Down, n, forwardSkip, backwardSkip) == Some(0)
    ensures Move(None, Up, n, forwardSkip, backwardSkip) == Some(n - 1)
    ensures backwardSkip > 1 ==> Move(None, UpSkip, n, forwardSkip, backwardSkip) == Some(0)
    ensures Move(None, DownSkip, n, forwardSkip, backwardSkip) ==
      Some(if 0 <= forwardSkip - 1 < n then forwardSkip - 1 else if forwardSkip == 0 then n - 1 else 0)
  {
  }

  /** "down" and "up" cycle through the regions: one step forward or back, wrapping at the ends. */
  lemma MoveCycles(k: int, n: nat, forwardSkip: int, backwardSkip: int)
    requires 0 <= k < n
    ensures Move(Some(k), Down, n, forwardSkip, backwardSkip) == Some(if k + 1 < n then k + 1 else 0)
    ensures Move(Some(k), Up, n, forwardSkip, backwardSkip) == Some(if k > 0 then k - 1 else n - 1)
  {
  }

  /** A forward skip past the end starts again at the first region, not at the remainder. */
  lemma SkipPastEndRestarts(k: int, n: nat, forwardSkip: int, backwardSkip: int)
    requires 0 <= k < n && k + forwardSkip >= n
    ensures Move(Some(k), DownSkip, n, forwardSkip, backwardSkip) == Some(0)
  {
  }

  /** A backward skip before the start lands on the first region, unless it lands exactly on -1. */
  lemma SkipBeforeStart(k: int, n: nat, forwardSkip: int, backwardSkip: int)
    requires 0 <= k < n && k - backwardSkip < 0
    ensures Move(Some(k), UpSkip, n, forwardSkip, backwardSkip) ==
      Some(if k - backwardSkip == -1 then n - 1 else 0)
  {
  }
}
