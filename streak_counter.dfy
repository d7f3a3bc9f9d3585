/**
 * The daily check-in button (src/components/StreakCounter.jsx): the first
 * press raises the streak by one and marks the day as done; every later
 * press does nothing, because `completedToday` is never cleared while the
 * component lives.
 */
module StreakCounter {

  /** The streak (held by the parent and updated through `setStreak`) and the `completedToday` flag. */
  datatype CounterState = CounterState(streak: int, completedToday: bool)

  /** One `handleCheckIn` on a state. */
  function Press(s: CounterState): CounterState
  {
    if s.completedToday then s else CounterState(s.streak + 1, true)
  }

  /** `n` presses in a row. */
  function PressTimes(s: CounterState, n: nat): CounterState
    decreases n
  {
    if n == 0 then s else PressTimes(Press(s), n - 1)
  }

  /**
   * However many presses follow, the streak grows by at most one: by
   * exactly one when the day was not yet done, by none when it was; after
   * any press the day is done, and once done the state never changes.
   */
  lemma {:induction false} PressesRaiseStreakAtMostOnce(s: CounterState, n: nat)
    ensures s.streak <= PressTimes(s, n).streak <= s.streak + 1
    ensures n > 0 ==> PressTimes(s, n).completedToday
    ensures n > 0 ==> PressTimes(s, n).streak == s.streak + (if s.completedToday then 0 else 1)
    ensures s.completedToday ==> PressTimes(s, n) == s
    decreases n
  {
    if n > 0 {
      PressesRaiseStreakAtMostOnce(Press(s), n - 1);
    }
  }

  class StreakCounter {
    var streak: int
    var completedToday: bool

    function State(): CounterState
      reads this
    {
      CounterState(streak, completedToday)
    }

    /** Mounting: the parent's current streak, and `useState(false)` for the flag. */
    constructor (streak: int)
      ensures this.streak == streak && !completedToday
    {
      this.streak := streak;
      completedToday := false;
    }

    /**
     * `handleCheckIn`: when the day is already done nothing changes;
     * otherwise the streak goes up by one and the day is marked done.
     * `celebrate` says whether confetti is fired.
     */
    method HandleCheckIn() returns (celebrate: bool)
      modifies this
      ensures State() == Press(old(State()))
      ensures celebrate == !old(completedToday)
      ensures completedToday
      ensures streak == old(streak) + (if old(completedToday) then 0 else 1)
    {
      if completedToday {
        return false;
      }
      celebrate := true;
      streak := streak + 1;
      completedToday := true;
    }
  }
}
