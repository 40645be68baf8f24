/**
 * The day tracker: a day's habits with their checked state, the score,
 * percentage and pass mark derived from it, and the optimistic overrides
 * a toggle writes before the server answers.
 *
 * A habit is checked when an override says so, or, when it has no override,
 * when the day's completions loaded with the page contain it.
 */
module TrackerClient {
  import opened Options
  import opened Calendar
  import opened DayStamps
  import opened Percentages
  import opened TrackerActions

  datatype Habit = Habit(id: string, name: string)

  /** `overrides`: the checked state the user set, for the habits they toggled. */
  type Overrides = map<string, bool>

  /** `overrides[id] ?? baseCompleted.has(id)`. */
  predicate IsChecked(overrides: Overrides, base: set<string>, id: string) {
    if id in overrides then overrides[id] else id in base
  }

  /** Checked means: an override that is true, or no override and a loaded completion. */
  lemma CheckedIff(overrides: Overrides, base: set<string>, id: string)
    ensures IsChecked(overrides, base, id) <==>
      (id in overrides && overrides[id]) || (id !in overrides && id in base)
  {
  }

  /** The `reduce` that counts the checked habits. */
  function Score(habits: seq<Habit>, overrides: Overrides, base: set<string>): (score: nat)
    ensures score <= |habits|
  {
    if habits == [] then 0
    else
      Score(habits[..|habits| - 1], overrides, base)
        + (if IsChecked(overrides, base, habits[|habits| - 1].id) then 1 else 0)
  }

  /** The score is the number of habits exactly when every habit is checked. */
  lemma {:induction false} ScoreFullIff(habits: seq<Habit>, overrides: Overrides, base: set<string>)
    ensures Score(habits, overrides, base) == |habits| <==>
      forall i :: 0 <= i < |habits| ==> IsChecked(overrides, base, habits[i].id)
  {
    if habits != [] {
      var prefix := habits[..|habits| - 1];
      ScoreFullIff(prefix, overrides, base);
      assert forall i :: 0 <= i < |prefix| ==> prefix[i] == habits[i];
    }
  }

  /** The score is 0 exactly when no habit is checked. */
  lemma {:induction false} ScoreEmptyIff(habits: seq<Habit>, overrides: Overrides, base: set<string>)
    ensures Score(habits, overrides, base) == 0 <==>
      forall i :: 0 <= i < |habits| ==> !IsChecked(overrides, base, habits[i].id)
  {
    if habits != [] {
      var prefix := habits[..|habits| - 1];
      ScoreEmptyIff(prefix, overrides, base);
      assert forall i :: 0 <= i < |prefix| ==> prefix[i] == habits[i];
    }
  }

  /** The score depends only on which habits are checked. */
  lemma {:induction false} ScoreOfSameChecks(habits: seq<Habit>, o1: Overrides, b1: set<string>, o2: Overrides, b2: set<string>)
    requires forall i :: 0 <= i < |habits| ==> (IsChecked(o1, b1, habits[i].id) <==> IsChecked(o2, b2, habits[i].id))
    ensures Score(habits, o1, b1) == Score(habits, o2, b2)
  {
    if habits != [] {
      var prefix := habits[..|habits| - 1];
      assert forall i :: 0 <= i < |prefix| ==> prefix[i] == habits[i];
      ScoreOfSameChecks(prefix, o1, b1, o2, b2);
    }
  }

  /** What the score card shows: `score/total`, the completion percentage and Pass or Fail. */
  datatype DayView = DayView(score: nat, total: nat, percent: nat, isPass: bool)

  function Summarize(habits: seq<Habit>, overrides: Overrides, base: set<string>, passPercentage: int): DayView {
    var score := Score(habits, overrides, base);
    var percent := Percent(score, |habits|);
    DayView(score, |habits|, percent, percent >= passPercentage)
  }

  /**
   * The score card: at most 100 percent, 0 percent without habits, a pass
   * exactly at or above the target, and (below 200 habits) 100 percent
   * exactly when every habit is checked.
   */
  lemma SummarizeFacts(habits: seq<Habit>, overrides: Overrides, base: set<string>, passPercentage: int)
    ensures var v := Summarize(habits, overrides, base, passPercentage);
      && v.total == |habits| && v.score <= v.total && v.percent <= 100
      && (v.isPass <==> v.percent >= passPercentage)
      && (v.total == 0 ==> v.score == 0 && v.percent == 0)
      && (0 < v.total < 200 ==>
            (v.percent == 100 <==> forall i :: 0 <= i < |habits| ==> IsChecked(overrides, base, habits[i].id)))
  {
    var score := Score(habits, overrides, base);
    PercentAtMost100(score, |habits|);
    PercentEnds(|habits|);
    ScoreFullIff(habits, overrides, base);
    if 0 < |habits| < 200 {
      PercentFullIff(score, |habits|);
    }
  }

  // ----- The overrides a toggle writes.

  /** `{ ...prev, [habitId]: nextValue }`. */
  function Toggled(overrides: Overrides, habitId: string, nextValue: bool): (r: Overrides)
    ensures r.Keys == overrides.Keys + {habitId} && r[habitId] == nextValue
    ensures forall k :: k in overrides && k != habitId ==> r[k] == overrides[k]
  {
    overrides[habitId := nextValue]
  }

  /** The failure branch as written: the copy without `habitId`'s override. */
  function Reverted(overrides: Overrides, habitId: string): (r: Overrides)
    ensures r.Keys == overrides.Keys - {habitId}
    ensures forall k :: k in r ==> r[k] == overrides[k]
  {
    overrides - {habitId}
  }

  /** The override a habit had before a toggle, if any. */
  function PriorOverride(overrides: Overrides, habitId: string): (r: Option<bool>)
    ensures r.Some? <==> habitId in overrides
    ensures r.Some? ==> r.value == overrides[habitId]
  {
    if habitId in overrides then Some(overrides[habitId]) else None
  }

  /** The corrected failure branch: put back the override the habit had before the toggle. */
  function Restored(overrides: Overrides, habitId: string, previous: Option<bool>): Overrides {
    match previous
    case Some(v) => overrides[habitId := v]
    case None => overrides - {habitId}
  }

  /** A toggle shows the habit in the new state and no other habit changes. */
  lemma ToggleChecks(overrides: Overrides, base: set<string>, habitId: string, nextValue: bool)
    ensures IsChecked(Toggled(overrides, habitId, nextValue), base, habitId) == nextValue
    ensures forall k :: k != habitId ==>
      IsChecked(Toggled(overrides, habitId, nextValue), base, k) == IsChecked(overrides, base, k)
  {
  }

  /** After the failure branch the habit shows its loaded state; no other habit changes. */
  lemma RevertFallsBack(overrides: Overrides, base: set<string>, habitId: string)
    ensures IsChecked(Reverted(overrides, habitId), base, habitId) == (habitId in base)
    ensures forall k :: k != habitId ==>
      IsChecked(Reverted(overrides, habitId), base, k) == IsChecked(overrides, base, k)
  {
  }

  /** Restoring the earlier override undoes a toggle completely. */
  lemma RestoredUndoesToggle(overrides: Overrides, habitId: string, nextValue: bool)
    ensures Restored(Toggled(overrides, habitId, nextValue), habitId, PriorOverride(overrides, habitId)) == overrides
  {
  }

  /** Deleting the override undoes a toggle exactly when the habit had no override before it. */
  lemma RevertUndoesToggleIff(overrides: Overrides, habitId: string, nextValue: bool)
    ensures Reverted(Toggled(overrides, habitId, nextValue), habitId) == overrides <==> habitId !in overrides
  {
    if habitId in overrides {
      assert habitId !in Reverted(Toggled(overrides, habitId, nextValue), habitId);
    }
  }

  // ----- Agreement between the tracker and the completion store.

  /**
   * The tracker shows what is stored: for each of its habits, checked exactly
   * when the day's completions contain it.
   */
  predicate Shows(overrides: Overrides, base: set<string>, stored: set<string>, ids: set<string>) {
    forall id :: id in ids ==> (IsChecked(overrides, base, id) <==> id in stored)
  }

  /** A freshly loaded tracker shows the store. */
  lemma LoadedShowsStore(rows: set<Completion>, user: string, day: string, ids: set<string>)
    ensures Shows(map[], CompletedOn(rows, user, day), CompletedOn(rows, user, day), ids)
  {
  }

  /** A toggle the server saved keeps the tracker showing the store. */
  lemma SavedToggleShowsStore(overrides: Overrides, base: set<string>, rows: set<Completion>,
                              user: string, day: string, ids: set<string>, habitId: string, nextValue: bool)
    requires Shows(overrides, base, CompletedOn(rows, user, day), ids)
    ensures Shows(Toggled(overrides, habitId, nextValue), base,
                  CompletedOn(Updated(rows, Completion(user, habitId, day), nextValue), user, day), ids)
  {
    CompletedOnUpdated(rows, user, habitId, day, nextValue);
  }

  /** With the corrected failure branch, a toggle the server refused keeps the tracker showing the store. */
  lemma RestoredShowsStore(overrides: Overrides, base: set<string>, stored: set<string>,
                           ids: set<string>, habitId: string, nextValue: bool)
    requires Shows(overrides, base, stored, ids)
    ensures Shows(Restored(Toggled(overrides, habitId, nextValue), habitId, PriorOverride(overrides, habitId)), base, stored, ids)
  {
    RestoredUndoesToggle(overrides, habitId, nextValue);
  }

  /**
   * The failure branch as written loses an earlier saved toggle. A habit not
   * completed at load is checked and saved, then unchecked and the save fails:
   * the store still holds the completion, but the tracker shows it unchecked.
   */
  lemma RevertLosesSavedToggle()
    ensures var user, day, h := "u", "2024-01-05", "h";
      var rows0: set<Completion> := {};
      var base := CompletedOn(rows0, user, day);
      var o1 := Toggled(map[], h, true);
      var rows1 := Updated(rows0, Completion(user, h, day), true);
      var o2 := Reverted(Toggled(o1, h, false), h);
      && Shows(map[], base, CompletedOn(rows0, user, day), {h})
      && Shows(o1, base, CompletedOn(rows1, user, day), {h})
      && !Shows(o2, base, CompletedOn(rows1, user, day), {h})
  {
    var user, day, h := "u", "2024-01-05", "h";
    var rows1 := Updated({}, Completion(user, h, day), true);
    assert h in CompletedOn(rows1, user, day);
    assert CompletedOn({}, user, day) == {};
  }

  // ----- The tracker component.

  class Tracker {
    const day: string
    const habits: seq<Habit>
    /** `new Set(completedHabitIds)`. */
    const baseCompleted: set<string>
    const passPercentage: int
    var overrides: Overrides
    var error: string

    constructor(day: string, habits: seq<Habit>, completedHabitIds: seq<string>, passPercentage: int)
      ensures this.day == day && this.habits == habits && this.passPercentage == passPercentage
      ensures baseCompleted == set id | id in completedHabitIds
      ensures overrides == map[] && error == ""
    {
      this.day := day;
      this.habits := habits;
      this.baseCompleted := set id | id in completedHabitIds;
      this.passPercentage := passPercentage;
      overrides := map[];
      error := "";
    }

    /**
     * `toggle(habitId, nextValue)` as written, with `result` the server's
     * answer: clear the error, set the override, and on failure show the
     * message and delete the override.
     */
    method Toggle(habitId: string, nextValue: bool, result: ActionState)
      modifies this
      ensures result.Ok? ==> overrides == Toggled(old(overrides), habitId, nextValue) && error == ""
      ensures result.Failed? ==>
        overrides == Reverted(Toggled(old(overrides), habitId, nextValue), habitId) && error == result.message
    {
      error := "";
      overrides := Toggled(overrides, habitId, nextValue);
      if result.Failed? {
        error := result.message;
        overrides := Reverted(overrides, habitId);
      }
    }

    /** `toggle` with the corrected failure branch: a refused save leaves the overrides as they were. */
    method ToggleRestoring(habitId: string, nextValue: bool, result: ActionState)
      modifies this
      ensures result.Ok? ==> overrides == Toggled(old(overrides), habitId, nextValue) && error == ""
      ensures result.Failed? ==> overrides == old(overrides) && error == result.message
    {
      var previous := PriorOverride(overrides, habitId);
      error := "";
      overrides := Toggled(overrides, habitId, nextValue);
      if result.Failed? {
        error := result.message;
        RestoredUndoesToggle(old(overrides), habitId, nextValue);
        overrides := Restored(overrides, habitId, previous);
      }
    }
  }

  // ----- The neighbouring days.

  /**
   * `format(addDays(parseISO(day), k), "yyyy-MM-dd")`. Nothing when the day
   * is not a calendar date with a year from 1 to 9999, or when the shifted
   * day's year is outside that range: there the date library writes a
   * five-digit or an era year, which this model does not produce.
   */
  function ShiftDay(day: string, k: int): Option<string> {
    match ParseDayStamp(day)
    case None => None
    case Some(n) => StampOf(n + k)
  }

  /** The stamp of day number m, when its year is from 1 to 9999. */
  function StampOf(m: int): Option<string> {
    if InIsoRange(m) then Some(ToISODate(m)) else None
  }

  function PrevDay(day: string): Option<string> {
    ShiftDay(day, -1)
  }

  function NextDay(day: string): Option<string> {
    ShiftDay(day, 1)
  }

  /** A day that parses moves by k days; nothing comes out when the result's year is outside 1 to 9999. */
  lemma ShiftDayOf(day: string, n: int, k: int)
    requires ParseDayStamp(day) == Some(n)
    ensures ShiftDay(day, k) == StampOf(n + k)
  {
  }

  /** The next day is the calendar successor, across month and year ends. */
  lemma NextDayIsSuccessor(day: string, n: int)
    requires ParseDayStamp(day) == Some(n) && InIsoRange(n + 1)
    ensures NextDay(day).Some? && ParseDayStamp(NextDay(day).value) == Some(n + 1)
    ensures FromDayNumber(n + 1) == Successor(FromDayNumber(n))
  {
    ShiftDayOf(day, n, 1);
    ParseToISODate(n + 1);
    NextDateIsSuccessor(n);
  }

  /** The previous day is the one whose successor is this day. */
  lemma PrevDayIsPredecessor(day: string, n: int)
    requires ParseDayStamp(day) == Some(n) && InIsoRange(n - 1)
    ensures PrevDay(day).Some? && ParseDayStamp(PrevDay(day).value) == Some(n - 1)
    ensures Successor(FromDayNumber(n - 1)) == FromDayNumber(n)
  {
    var m := n - 1;
    ShiftDayOf(day, n, -1);
    assert PrevDay(day) == Some(ToISODate(m));
    ParseToISODate(m);
    assert ParseDayStamp(PrevDay(day).value) == Some(m);
    PreviousDateIsPredecessor(n);
  }

  /** Going forward then back returns to the same stamp. */
  lemma NextThenPrev(n: int)
    requires InIsoRange(n) && InIsoRange(n + 1)
    ensures NextDay(ToISODate(n)) == Some(ToISODate(n + 1))
    ensures PrevDay(ToISODate(n + 1)) == Some(ToISODate(n))
  {
    ParseToISODate(n);
    ShiftDayOf(ToISODate(n), n, 1);
    ParseToISODate(n + 1);
    ShiftDayOf(ToISODate(n + 1), n + 1, -1);
  }

  /** Stamps of the right shape that are not dates have no neighbours. */
  lemma InvalidDayHasNoNeighbours()
    ensures NextDay("2024-13-99") == None && PrevDay("2024-13-99") == None
  {
    DaySchemaIsShapeOnly();
  }
}
