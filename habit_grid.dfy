/**
 * The habit check-in grid (src/components/HabitList.jsx): each habit shows a
 * window of seven days ending today, one cell per day, checked when a row
 * for (habit, day) exists in the `habit_check_ins` table; a cell can be
 * toggled for today or a past day; the trailing run of checked days is the
 * habit's streak.
 *
 * Calendar dates are day numbers (consecutive days differ by one); the
 * source's ISO date strings compare in the same order.
 */
module HabitGrid {
  import opened Wrappers
  import opened Text

  type Day = int
  type HabitId = int
  type UserId = int

  /** A `habit_check_ins` row, keyed by `habit_id` and `check_in_date`. */
  datatype CheckIn = CheckIn(habitId: HabitId, day: Day)

  /** A `habits` row. */
  datatype HabitRow = HabitRow(id: HabitId, userId: UserId, name: string, icon: string)

  /** An entry of the component's `habits` state: the row plus its seven-day window. */
  datatype Habit = Habit(row: HabitRow, checkIns: seq<bool>)

  /** Which branch `toggleCheckIn` took; `celebrate` is whether confetti is shown. */
  datatype ToggleOutcome = NotSignedIn | FutureDate | Unchecked | Checked(celebrate: bool)

  const WindowLength: nat := 7
  const DefaultIcon: string := "🎯"

  // ---------------------------------------------------------------- streak

  /** The number of `true` entries at the end of `w` before the first `false`, scanning backwards. */
  function TrailingTrue(w: seq<bool>): nat
  {
    if w == [] || !w[|w| - 1] then 0 else TrailingTrue(w[..|w| - 1]) + 1
  }

  /**
   * `TrailingTrue(w)` is the length of the longest all-true suffix of `w`:
   * it fits in `w`, every entry it covers is true, and the entry just before
   * it (if any) is false.
   */
  lemma {:induction false} TrailingTrueIsLongestTrueSuffix(w: seq<bool>)
    ensures TrailingTrue(w) <= |w|
    ensures forall i :: |w| - TrailingTrue(w) <= i < |w| ==> w[i]
    ensures TrailingTrue(w) < |w| ==> !w[|w| - 1 - TrailingTrue(w)]
  {
    if w != [] && w[|w| - 1] {
      var p := w[..|w| - 1];
      TrailingTrueIsLongestTrueSuffix(p);
      forall i | |w| - TrailingTrue(w) <= i < |w| ensures w[i] {
        if i < |w| - 1 { assert w[i] == p[i]; }
      }
      if TrailingTrue(w) < |w| {
        assert w[|w| - 1 - TrailingTrue(w)] == p[|p| - 1 - TrailingTrue(p)];
      }
    }
  }

  /** A window that is empty or ends unchecked has streak 0. */
  lemma LastUncheckedGivesZero(w: seq<bool>)
    requires w == [] || !w[|w| - 1]
    ensures TrailingTrue(w) == 0
  {
  }

  /** Only the unbroken run at the end counts: [T,T,F,T,T,T,T] has streak 4. */
  lemma {:induction false} StreakExample()
    ensures TrailingTrue([true, true, false, true, true, true, true]) == 4
  {
    var w := [true, true, false, true, true, true, true];
    assert w[..6] == [true, true, false, true, true, true];
    assert w[..6][..5] == [true, true, false, true, true];
    assert w[..6][..5][..4] == [true, true, false, true];
    assert w[..6][..5][..4][..3] == [true, true, false];
    assert TrailingTrue([true, true, false]) == 0;
    assert TrailingTrue([true, true, false, true]) == 1;
    assert TrailingTrue([true, true, false, true, true]) == 2;
    assert TrailingTrue([true, true, false, true, true, true]) == 3;
  }

  /** `calculateStreak`: count checked cells from the newest backwards, stopping at the first unchecked one. */
  method CalculateStreak(checkIns: seq<bool>) returns (streak: nat)
    ensures streak == TrailingTrue(checkIns)
    ensures streak <= |checkIns|
  {
    streak := 0;
    var i := |checkIns| - 1;
    assert checkIns[..i + 1] == checkIns;
    while i >= 0
      invariant -1 <= i < |checkIns|
      invariant streak == |checkIns| - 1 - i
      invariant TrailingTrue(checkIns) == streak + TrailingTrue(checkIns[..i + 1])
    {
      if checkIns[i] {
        assert checkIns[..i + 1][..i] == checkIns[..i];
        streak := streak + 1;
      } else {
        break;
      }
      i := i - 1;
    }
  }

  // ---------------------------------------------------------------- window

  /** The seven days that end at `today`, oldest first. */
  function Last7(today: Day): (days: seq<Day>)
    ensures |days| == WindowLength && days[WindowLength - 1] == today
    ensures forall k :: 0 < k < |days| ==> days[k] == days[k - 1] + 1
  {
    seq(WindowLength, k => today - (WindowLength - 1) + k)
  }

  /**
   * `getLast7Days`: push today-6, ..., today in that order. The source reads
   * the clock afresh on each of the seven iterations; here one reading,
   * `today`, serves them all.
   */
  method GetLast7Days(today: Day) returns (days: seq<Day>)
    ensures days == Last7(today)
  {
    days := [];
    var i := 6;
    while i >= 0
      invariant -1 <= i <= 6
      invariant |days| == 6 - i
      invariant forall k :: 0 <= k < |days| ==> days[k] == today - 6 + k
    {
      days := days + [today - i];
      i := i - 1;
    }
  }

  /** The check-in query: dates of rows of habit `h` between `from` and `to` inclusive. */
  function FetchedDates(table: set<CheckIn>, h: HabitId, from: Day, to: Day): (dates: set<Day>)
    ensures forall d :: d in dates <==> CheckIn(h, d) in table && from <= d <= to
  {
    set c | c in table && c.habitId == h && from <= c.day <= to :: c.day
  }

  /** `last7Days.map(date => checkInDates.includes(date))`. */
  function BuildWindow(days: seq<Day>, checkInDates: set<Day>): seq<bool>
  {
    seq(|days|, i requires 0 <= i < |days| => days[i] in checkInDates)
  }

  /**
   * The window `loadHabits` builds for habit `h`: seven cells, cell `i`
   * checked exactly when a check-in row for (h, today - 6 + i) exists.
   */
  function LoadedWindow(table: set<CheckIn>, h: HabitId, today: Day): (w: seq<bool>)
    ensures |w| == WindowLength
    ensures forall i :: 0 <= i < WindowLength ==> (w[i] <==> CheckIn(h, today - 6 + i) in table)
  {
    var days := Last7(today);
    BuildWindow(days, FetchedDates(table, h, days[0], days[WindowLength - 1]))
  }

  /**
   * The streak shown for a habit is the number of consecutive days, ending
   * today, that have a check-in row, capped at the window's seven days.
   */
  lemma WindowStreakMeaning(table: set<CheckIn>, h: HabitId, today: Day)
    ensures var s := TrailingTrue(LoadedWindow(table, h, today));
      && s <= WindowLength
      && (forall d :: today - s < d <= today ==> CheckIn(h, d) in table)
      && (s < WindowLength ==> CheckIn(h, today - s) !in table)
  {
    var w := LoadedWindow(table, h, today);
    TrailingTrueIsLongestTrueSuffix(w);
    var s := TrailingTrue(w);
    forall d | today - s < d <= today ensures CheckIn(h, d) in table {
      assert w[d - today + 6];
    }
  }

  /** What a query error on a habit's check-ins shows: `(checkIns || [])` leaves every cell unchecked. */
  function EmptyWindow(): (w: seq<bool>)
    ensures |w| == WindowLength && forall i :: 0 <= i < |w| ==> !w[i]
  {
    seq(WindowLength, _ => false)
  }

  /** The `habits` rows of user `u`, in table order (`.eq('user_id', u)`, ordered by creation). */
  function OwnRows(rows: seq<HabitRow>, u: UserId): (own: seq<HabitRow>)
    ensures |own| <= |rows|
    ensures forall r :: r in own <==> r in rows && r.userId == u
  {
    if rows == [] then []
    else if rows[0].userId == u then [rows[0]] + OwnRows(rows[1..], u)
    else OwnRows(rows[1..], u)
  }

  /** Filtering keeps table order: the rows of a concatenation are the rows of each part, in turn. */
  lemma {:induction false} OwnRowsConcat(a: seq<HabitRow>, b: seq<HabitRow>, u: UserId)
    ensures OwnRows(a + b, u) == OwnRows(a, u) + OwnRows(b, u)
  {
    if a != [] {
      assert (a + b)[1..] == a[1..] + b;
      OwnRowsConcat(a[1..], b, u);
    } else {
      assert a + b == b;
    }
  }

  /** A row appended to the table (a newly created habit) is listed after every earlier row of its user. */
  lemma OwnRowsAppend(rows: seq<HabitRow>, r: HabitRow, u: UserId)
    ensures OwnRows(rows + [r], u) == OwnRows(rows, u) + (if r.userId == u then [r] else [])
  {
    OwnRowsConcat(rows, [r], u);
    assert [r][1..] == [];
  }

  /** The `habitsWithCheckIns` list: each row with its window, or an empty one when its query failed. */
  function HabitsWithCheckIns(rows: seq<HabitRow>, table: set<CheckIn>, today: Day, failed: set<HabitId>): seq<Habit>
  {
    seq(|rows|, i requires 0 <= i < |rows| =>
      Habit(rows[i], if rows[i].id in failed then EmptyWindow() else LoadedWindow(table, rows[i].id, today)))
  }

  /** After a reload, the table's last row, when it is user `u`'s, is the last habit listed. */
  lemma LastRowListedLast(rows: seq<HabitRow>, u: UserId, table: set<CheckIn>, today: Day, failed: set<HabitId>)
    requires |rows| > 0 && rows[|rows| - 1].userId == u
    ensures var listed := HabitsWithCheckIns(OwnRows(rows, u), table, today, failed);
      |listed| > 0 && listed[|listed| - 1].row == rows[|rows| - 1]
  {
    var last := |rows| - 1;
    assert rows == rows[..last] + [rows[last]];
    OwnRowsAppend(rows[..last], rows[last], u);
  }

  /** `habits.find(h => h.id === id)`: the first habit carrying that id. */
  function FindHabit(habits: seq<Habit>, id: HabitId): (i: nat)
    requires exists j :: 0 <= j < |habits| && habits[j].row.id == id
    ensures i < |habits| && habits[i].row.id == id
    ensures forall j :: 0 <= j < i ==> habits[j].row.id != id
  {
    if habits[0].row.id == id then 0
    else
      assert exists j :: 1 <= j < |habits| && habits[j].row.id == id;
      assert exists j :: 0 <= j < |habits[1..]| && habits[1..][j].row.id == id;
      1 + FindHabit(habits[1..], id)
  }

  // ---------------------------------------------------------------- toggle

  /** The table after a toggle of (h, d): delete the row when the cell showed checked, insert one otherwise. */
  function Toggled(table: set<CheckIn>, h: HabitId, d: Day, isChecked: bool): set<CheckIn>
  {
    if isChecked then table - {CheckIn(h, d)} else table + {CheckIn(h, d)}
  }

  /** A toggle flips exactly the (h, d) row and leaves every other habit and day alone. */
  lemma ToggleFlipsOnlyItsKey(table: set<CheckIn>, h: HabitId, d: Day, isChecked: bool)
    ensures CheckIn(h, d) in Toggled(table, h, d, isChecked) <==> !isChecked
    ensures forall c :: c != CheckIn(h, d) ==> (c in Toggled(table, h, d, isChecked) <==> c in table)
  {
  }

  /**
   * With the window in step with the table, toggling the same cell twice
   * (reloading in between) gives back the original table.
   */
  lemma ToggleTwiceRestores(table: set<CheckIn>, h: HabitId, d: Day)
    ensures var once := Toggled(table, h, d, CheckIn(h, d) in table);
      Toggled(once, h, d, CheckIn(h, d) in once) == table
  {
  }

  /** The future-date guard never fires when the clock does not go back between the window's reading and `today`'s. */
  lemma FutureGuardNeedsClockSkew(windowEnd: Day, today: Day, dateIndex: nat)
    requires dateIndex < WindowLength
    requires Last7(windowEnd)[dateIndex] > today
    ensures today < windowEnd
  {
  }

  // ---------------------------------------------------------------- state

  /** The two tables of the hosted store that the grid reads and writes. */
  class Store {
    var habitRows: seq<HabitRow>
    var checkIns: set<CheckIn>

    constructor (habitRows: seq<HabitRow>, checkIns: set<CheckIn>)
      ensures this.habitRows == habitRows && this.checkIns == checkIns
    {
      this.habitRows := habitRows;
      this.checkIns := checkIns;
    }
  }

  /** The HabitList component: its state fields and the store it talks to. */
  class HabitList {
    const store: Store
    var habits: seq<Habit>
    var loading: bool
    var showAddModal: bool
    var newHabitName: string
    var selectedIcon: string

    /** Every loaded habit has a full seven-cell window. */
    ghost predicate Valid()
      reads this`habits
    {
      forall i :: 0 <= i < |habits| ==> |habits[i].checkIns| == WindowLength
    }

    /**
     * `habits` is user `u`'s rows, each with the window the table gives for
     * `today` (an empty one for the habits in `failed`).
     */
    ghost predicate Shows(u: UserId, today: Day, failed: set<HabitId>)
      reads this, store
    {
      habits == HabitsWithCheckIns(OwnRows(store.habitRows, u), store.checkIns, today, failed)
    }

    /** A finished reload: the habits are shown as loaded and `loading` is off. */
    ghost predicate Reloaded(u: UserId, today: Day, failed: set<HabitId>)
      reads this, store
    {
      Shows(u, today, failed) && !loading
    }

    /** Each shown cell is checked exactly when its habit's check-ins loaded and the table holds that day. */
    ghost predicate CellsShowTable(today: Day, failed: set<HabitId>)
      requires Valid()
      reads this, store
    {
      forall i, k :: 0 <= i < |habits| && 0 <= k < WindowLength ==>
        (habits[i].checkIns[k] <==>
           habits[i].row.id !in failed && CheckIn(habits[i].row.id, today - 6 + k) in store.checkIns)
    }

    /** The shown habits are in step with the table: every habit's check-ins loaded. */
    ghost predicate InSync(u: UserId, today: Day)
      reads this, store
    {
      Shows(u, today, {})
    }

    /** The component's initial state (`useState` defaults), before the mount effect loads habits. */
    constructor (store: Store)
      ensures Valid() && this.store == store
      ensures habits == [] && loading && !showAddModal
      ensures newHabitName == "" && selectedIcon == DefaultIcon
    {
      this.store := store;
      habits := [];
      loading := true;
      showAddModal := false;
      newHabitName := "";
      selectedIcon := DefaultIcon;
    }

    /**
     * `loadHabits`: with no signed-in user or a failed habits query nothing
     * changes; otherwise `habits` becomes the user's rows with their windows
     * and `loading` is cleared. `failed` holds the habits whose check-in
     * query returned an error.
     */
    method LoadHabits(user: Option<UserId>, today: Day, queryOk: bool, failed: set<HabitId>)
      requires Valid()
      modifies this
      ensures Valid()
      ensures showAddModal == old(showAddModal) && newHabitName == old(newHabitName) && selectedIcon == old(selectedIcon)
      ensures user.None? || !queryOk ==> habits == old(habits) && loading == old(loading)
      ensures user.Some? && queryOk ==>
        && !loading
        && habits == HabitsWithCheckIns(OwnRows(store.habitRows, user.value), store.checkIns, today, failed)
        && |habits| == |OwnRows(store.habitRows, user.value)|
        && CellsShowTable(today, failed)
      ensures user.Some? && queryOk && failed == {} ==> InSync(user.value, today)
    {
      if user.None? {
        return;
      }
      if !queryOk {
        return;
      }
      habits := HabitsWithCheckIns(OwnRows(store.habitRows, user.value), store.checkIns, today, failed);
      loading := false;
    }

    /**
     * `toggleCheckIn(habitId, dateIndex)`. The window's dates come from the
     * clock as `getLast7Days` reads it (`windowEnd`) and `today` from a
     * later reading. A target after `today` is rejected with no change.
     * Otherwise the cell's shown state decides: checked deletes the
     * (habitId, target) rows, unchecked inserts one (a failed write, which
     * the source does not inspect, leaves the table as it was); then the
     * habits are reloaded. The habit is one the grid shows, as the cell's
     * click handler ensures.
     */
    method ToggleCheckIn(user: Option<UserId>, habitId: HabitId, dateIndex: nat, windowEnd: Day, today: Day,
                         writeOk: bool, reloadOk: bool, reloadFailed: set<HabitId>)
      returns (outcome: ToggleOutcome)
      requires Valid()
      requires dateIndex < WindowLength
      requires exists j :: 0 <= j < |habits| && habits[j].row.id == habitId
      modifies this, store
      ensures Valid()
      ensures store.habitRows == old(store.habitRows)
      ensures showAddModal == old(showAddModal) && newHabitName == old(newHabitName) && selectedIcon == old(selectedIcon)
      ensures user.None? ==>
        outcome == NotSignedIn && store.checkIns == old(store.checkIns) && habits == old(habits) && loading == old(loading)
      ensures user.Some? && Last7(windowEnd)[dateIndex] > today ==>
        outcome == FutureDate && store.checkIns == old(store.checkIns) && habits == old(habits) && loading == old(loading)
      ensures user.Some? && Last7(windowEnd)[dateIndex] <= today ==>
        var target := Last7(windowEnd)[dateIndex];
        var isChecked := old(habits)[FindHabit(old(habits), habitId)].checkIns[dateIndex];
        && outcome == (if isChecked then Unchecked else Checked(target == today))
        && store.checkIns == (if writeOk then Toggled(old(store.checkIns), habitId, target, isChecked) else old(store.checkIns))
        && (reloadOk ==> Reloaded(user.value, today, reloadFailed))
        && (reloadOk && reloadFailed == {} ==> InSync(user.value, today))
        && (!reloadOk ==> habits == old(habits) && loading == old(loading))
    {
      if user.None? {
        return NotSignedIn;
      }
      var last7Days := GetLast7Days(windowEnd);
      var targetDate := last7Days[dateIndex];
      if targetDate > today {
        return FutureDate;
      }
      var habit := habits[FindHabit(habits, habitId)];
      var isChecked := habit.checkIns[dateIndex];
      if isChecked {
        if writeOk {
          store.checkIns := store.checkIns - {CheckIn(habitId, targetDate)};
        }
        outcome := Unchecked;
      } else {
        if writeOk {
          store.checkIns := store.checkIns + {CheckIn(habitId, targetDate)};
        }
        outcome := Checked(targetDate == today);
      }
      LoadHabits(user, today, reloadOk, reloadFailed);
    }

    /**
     * `addHabit`: a name that is blank after trimming (by `Trim`'s contract,
     * one that `IsBlank`), no signed-in user or a failed insert leaves the
     * table and the form as they were; otherwise one row with the name as
     * typed and the selected icon is appended, the form is reset and the
     * habits are reloaded, the new habit listed last (rows are read in
     * creation order).
     */
    method AddHabit(user: Option<UserId>, newId: HabitId, insertOk: bool, today: Day, reloadOk: bool,
                    reloadFailed: set<HabitId>)
      requires Valid()
      modifies this, store
      ensures Valid()
      ensures store.checkIns == old(store.checkIns)
      ensures IsBlank(old(newHabitName)) || user.None? || !insertOk ==>
        && store.habitRows == old(store.habitRows)
        && newHabitName == old(newHabitName) && selectedIcon == old(selectedIcon)
        && showAddModal == old(showAddModal) && habits == old(habits) && loading == old(loading)
      ensures !IsBlank(old(newHabitName)) && user.Some? && insertOk ==>
        var added := HabitRow(newId, user.value, old(newHabitName), old(selectedIcon));
        && store.habitRows == old(store.habitRows) + [added]
        && newHabitName == "" && selectedIcon == DefaultIcon && !showAddModal
        && (reloadOk ==> Reloaded(user.value, today, reloadFailed) && habits[|habits| - 1].row == added)
        && (reloadOk && reloadFailed == {} ==> InSync(user.value, today))
        && (!reloadOk ==> habits == old(habits) && loading == old(loading))
    {
      if IsBlank(newHabitName) || user.None? || !insertOk {
        return;
      }
      var added := HabitRow(newId, user.value, newHabitName, selectedIcon);
      store.habitRows := store.habitRows + [added];
      newHabitName := "";
      selectedIcon := DefaultIcon;
      showAddModal := false;
      LoadHabits(user, today, reloadOk, reloadFailed);
      if reloadOk {
        LastRowListedLast(store.habitRows, user.value, store.checkIns, today, reloadFailed);
      }
    }

    /** Toggling one cell twice, reloading after each, restores the check-in table. */
    method ToggleTwice(u: UserId, habitId: HabitId, dateIndex: nat, today: Day)
      requires Valid() && InSync(u, today)
      requires dateIndex < WindowLength
      requires exists j :: 0 <= j < |habits| && habits[j].row.id == habitId
      modifies this, store
      ensures store.checkIns == old(store.checkIns)
    {
      var target := Last7(today)[dateIndex];
      ghost var t0 := store.checkIns;
      ghost var j :| 0 <= j < |habits| && habits[j].row.id == habitId;
      WindowShowsTable(u, today, habitId, dateIndex);
      var o1 := ToggleCheckIn(Some(u), habitId, dateIndex, today, today, true, true, {});
      ghost var t1 := store.checkIns;
      assert t1 == Toggled(t0, habitId, target, CheckIn(habitId, target) in t0);
      assert habits[j].row.id == habitId;
      WindowShowsTable(u, today, habitId, dateIndex);
      var o2 := ToggleCheckIn(Some(u), habitId, dateIndex, today, today, true, true, {});
      ToggleTwiceRestores(t0, habitId, target);
    }

    /** When in sync, the cell shown for a habit is the presence of its row in the table. */
    lemma WindowShowsTable(u: UserId, today: Day, habitId: HabitId, dateIndex: nat)
      requires InSync(u, today)
      requires dateIndex < WindowLength
      requires exists j :: 0 <= j < |habits| && habits[j].row.id == habitId
      ensures habits[FindHabit(habits, habitId)].checkIns[dateIndex]
        <==> CheckIn(habitId, Last7(today)[dateIndex]) in store.checkIns
    {
    }
  }
}
