/**
 * The tracker's server actions: validation of their form inputs, the
 * template filter of `applyTemplate`, and the three stores they write.
 *
 * Each action validates its input first, then asks for the signed-in user,
 * then issues one database statement. The user (`None` when nobody is signed
 * in) and the database's error, if it reports one, are parameters of each
 * action. An action that fails leaves its store as it was.
 */
module TrackerActions {
  import opened Options
  import opened Text
  import opened DayStamps

  /** `TrackerActionState`: `{ ok: true }` or `{ ok: false, message }`. */
  datatype ActionState = Ok | Failed(message: string)

  const PassPercentageMessage: string := "Pass percentage must be 0-100."
  const HabitNameMessage: string := "Habit name is required."
  const TemplateMessage: string := "Invalid template selection."
  const PayloadMessage: string := "Invalid completion payload."
  const AuthMessage: string := "Not authenticated."

  /** Longest habit name, in characters, after trimming. */
  const MaxNameLength: nat := 80

  /**
   * What `Number(...)` makes of the submitted pass percentage: a finite
   * number, or NaN or an infinity.
   */
  datatype Coerced = Finite(value: real) | NonFinite

  /** `z.coerce.number().int().min(0).max(100)` after the coercion. */
  function ParsePassPercentage(x: Coerced): (r: Option<int>)
    ensures forall k: int :: r == Some(k) <==> 0 <= k <= 100 && x == Finite(k as real)
  {
    if x.Finite? && x.value.Floor as real == x.value && 0 <= x.value.Floor <= 100
    then Some(x.value.Floor)
    else None
  }

  /** A name is accepted when its trimmed form has 1 to 80 characters. */
  predicate NameFits(name: string) {
    1 <= |Trim(name)| <= MaxNameLength
  }

  /**
   * `z.string().trim().min(1).max(80)` on the `name` field, which is absent
   * (`None`) when the form has no text field of that name.
   */
  function ParseHabitName(name: Option<string>): (r: Option<string>)
    ensures r.Some? <==> name.Some? && NameFits(name.value)
    ensures r.Some? ==> r.value == Trim(name.value) && Trimmed(r.value) && 1 <= |r.value| <= MaxNameLength
  {
    match name
    case None => None
    case Some(n) =>
      TrimProperties(n);
      if NameFits(n) then Some(Trim(n)) else None
  }

  /**
   * `z.array(z.string().trim().min(1).max(80))`: every entry trimmed, and the
   * whole selection refused when any one entry does not fit.
   */
  function ParseSelection(selected: seq<string>): (r: Option<seq<string>>)
    ensures r.None? <==> exists i :: 0 <= i < |selected| && !NameFits(selected[i])
    ensures r.Some? ==> |r.value| == |selected| && forall i :: 0 <= i < |selected| ==> r.value[i] == Trim(selected[i])
  {
    if selected == [] then Some([])
    else if !NameFits(selected[0]) then None
    else
      match ParseSelection(selected[1..])
      case None => assert !NameFits(selected[1..][0]) || exists i :: 0 < i < |selected| && !NameFits(selected[i]); None
      case Some(rest) => Some([Trim(selected[0])] + rest)
  }

  /** The `map((name) => name.trim())` step of `applyTemplate`. */
  function TrimAll(names: seq<string>): (r: seq<string>)
    ensures |r| == |names| && forall i :: 0 <= i < |names| ==> r[i] == Trim(names[i])
  {
    if names == [] then [] else [Trim(names[0])] + TrimAll(names[1..])
  }

  /**
   * The `filter` step: the names whose lowercase form is not an existing key,
   * each as often as in the input (`KeepNewCounts`), and in the input's
   * order (`KeepNewAppend`).
   */
  function KeepNew(names: seq<string>, existing: set<string>): (r: seq<string>)
    ensures |r| <= |names|
    ensures forall x :: x in r <==> x in names && Lower(x) !in existing
  {
    if names == [] then []
    else (if Lower(names[0]) in existing then [] else [names[0]]) + KeepNew(names[1..], existing)
  }

  /** Every new name is kept as often as it occurs; the names with an existing key go. */
  lemma {:induction false} KeepNewCounts(names: seq<string>, existing: set<string>)
    ensures forall x :: multiset(KeepNew(names, existing))[x] == if Lower(x) in existing then 0 else multiset(names)[x]
  {
    if names != [] {
      assert names == [names[0]] + names[1..];
      KeepNewCounts(names[1..], existing);
    }
  }

  /** Filtering a concatenation filters each part: the kept names stay in order. */
  lemma {:induction false} KeepNewAppend(a: seq<string>, b: seq<string>, existing: set<string>)
    ensures KeepNew(a + b, existing) == KeepNew(a, existing) + KeepNew(b, existing)
  {
    if a != [] {
      var ab := a + b;
      assert ab[0] == a[0] && ab[1..] == a[1..] + b;
      KeepNewAppend(a[1..], b, existing);
    } else {
      assert a + b == b;
    }
  }

  /** The names `applyTemplate` inserts for a parsed selection. */
  function NamesToInsert(parsed: seq<string>, existing: set<string>): seq<string> {
    KeepNew(TrimAll(parsed), existing)
  }

  /**
   * What a valid selection inserts: names from the selection, of at most 80
   * characters, none of whose keys the user already has; and every selected
   * name is either inserted or already present.
   */
  lemma InsertedNames(selected: seq<string>, parsed: seq<string>, existing: set<string>)
    requires ParseSelection(selected) == Some(parsed)
    ensures forall x :: x in NamesToInsert(parsed, existing) ==>
      x in parsed && NormalizeName(x) !in existing && 1 <= |x| <= MaxNameLength
    ensures forall i :: 0 <= i < |parsed| ==>
      NormalizeName(parsed[i]) in existing || parsed[i] in NamesToInsert(parsed, existing)
  {
    var trimmed := TrimAll(parsed);
    assert trimmed == parsed by {
      forall i | 0 <= i < |parsed| ensures trimmed[i] == parsed[i] {
        TrimIdempotent(selected[i]);
      }
    }
    forall i | 0 <= i < |parsed| ensures NormalizeName(parsed[i]) == Lower(parsed[i]) && 1 <= |parsed[i]| <= MaxNameLength {
      assert NameFits(selected[i]);
      TrimIdempotent(selected[i]);
    }
  }

  /** Duplicates inside one selection are not removed: both copies are inserted. */
  lemma SelectionDuplicatesKept()
    ensures NamesToInsert(["Read", "Read"], {}) == ["Read", "Read"]
  {
    assert Trim("Read") == "Read";
    assert TrimAll(["Read", "Read"]) == ["Read", "Read"];
    assert ["Read", "Read"][1..] == ["Read"];
  }

  // ----- The settings store: one pass percentage per user.

  class SettingsStore {
    var passPercentage: map<string, int>

    /** Every stored pass percentage lies in 0..100. */
    ghost predicate Valid()
      reads this
    {
      forall u :: u in passPercentage ==> 0 <= passPercentage[u] <= 100
    }

    constructor()
      ensures passPercentage == map[] && Valid()
    {
      passPercentage := map[];
    }

    /** `setPassPercentage`: validate, authenticate, upsert the user's row. */
    method SetPassPercentage(user: Option<string>, input: Coerced, dbError: Option<string>) returns (result: ActionState)
      requires Valid()
      modifies this
      ensures Valid()
      ensures ParsePassPercentage(input).None? ==>
        result == Failed(PassPercentageMessage) && passPercentage == old(passPercentage)
      ensures ParsePassPercentage(input).Some? && user.None? ==>
        result == Failed(AuthMessage) && passPercentage == old(passPercentage)
      ensures ParsePassPercentage(input).Some? && user.Some? && dbError.Some? ==>
        result == Failed(dbError.value) && passPercentage == old(passPercentage)
      ensures ParsePassPercentage(input).Some? && user.Some? && dbError.None? ==>
        result == Ok && passPercentage == old(passPercentage)[user.value := ParsePassPercentage(input).value]
    {
      var parsed := ParsePassPercentage(input);
      if parsed.None? {
        return Failed(PassPercentageMessage);
      }
      if user.None? {
        return Failed(AuthMessage);
      }
      if dbError.Some? {
        return Failed(dbError.value);
      }
      passPercentage := passPercentage[user.value := parsed.value];
      return Ok;
    }
  }

  // ----- The habit store: the user's habits, archived or not.

  datatype HabitRow = HabitRow(user: string, name: string, archived: bool)

  /** `select name … eq("user_id", user).eq("archived", false)`, in store order. */
  function ActiveNames(rows: seq<HabitRow>, user: string): seq<string> {
    if rows == [] then []
    else
      var last := rows[|rows| - 1];
      ActiveNames(rows[..|rows| - 1], user) + (if last.user == user && !last.archived then [last.name] else [])
  }

  /** The active names are the names of the user's habits that are not archived. */
  lemma {:induction false} ActiveNamesMembers(rows: seq<HabitRow>, user: string)
    ensures forall n :: n in ActiveNames(rows, user) <==> exists i :: 0 <= i < |rows| && rows[i] == HabitRow(user, n, false)
  {
    if rows != [] {
      var prefix := rows[..|rows| - 1];
      ActiveNamesMembers(prefix, user);
      assert forall i :: 0 <= i < |rows| - 1 ==> prefix[i] == rows[i];
    }
  }

  /** The rows `applyTemplate` inserts: one active habit of the user per name. */
  function NewRows(user: string, names: seq<string>): (rows: seq<HabitRow>)
    ensures |rows| == |names|
    ensures forall i :: 0 <= i < |names| ==> rows[i] == HabitRow(user, names[i], false)
  {
    if names == [] then [] else [HabitRow(user, names[0], false)] + NewRows(user, names[1..])
  }

  lemma {:induction false} ActiveNamesAppend(rows: seq<HabitRow>, extra: seq<HabitRow>, user: string)
    ensures ActiveNames(rows + extra, user) == ActiveNames(rows, user) + ActiveNames(extra, user)
  {
    if extra != [] {
      var all := rows + extra;
      assert all[..|all| - 1] == rows + extra[..|extra| - 1];
      assert all[|all| - 1] == extra[|extra| - 1];
      ActiveNamesAppend(rows, extra[..|extra| - 1], user);
    } else {
      assert rows + extra == rows;
    }
  }

  lemma {:induction false} ActiveNamesOfNewRows(user: string, names: seq<string>)
    ensures ActiveNames(NewRows(user, names), user) == names
  {
    if names != [] {
      var rest := NewRows(user, names[1..]);
      assert NewRows(user, names) == [HabitRow(user, names[0], false)] + rest;
      ActiveNamesAppend([HabitRow(user, names[0], false)], rest, user);
      ActiveNamesOfNewRows(user, names[1..]);
      assert ActiveNames([HabitRow(user, names[0], false)], user) == [names[0]];
    }
  }

  /**
   * After a successful `applyTemplate`, every selected name's key is among the
   * user's active habit names.
   */
  lemma ApplyCoversSelection(rows: seq<HabitRow>, user: string, selected: seq<string>, parsed: seq<string>)
    requires ParseSelection(selected) == Some(parsed)
    ensures var existing := NameKeys(ActiveNames(rows, user));
      var after := rows + NewRows(user, NamesToInsert(parsed, existing));
      forall i :: 0 <= i < |parsed| ==> NormalizeName(parsed[i]) in NameKeys(ActiveNames(after, user))
  {
    var existing := NameKeys(ActiveNames(rows, user));
    var names := NamesToInsert(parsed, existing);
    InsertedNames(selected, parsed, existing);
    ActiveNamesAppend(rows, NewRows(user, names), user);
    ActiveNamesOfNewRows(user, names);
  }

  class HabitStore {
    var rows: seq<HabitRow>

    constructor(initial: seq<HabitRow>)
      ensures rows == initial
    {
      rows := initial;
    }

    /** `createHabit`: validate the name, authenticate, insert the trimmed name. */
    method CreateHabit(user: Option<string>, name: Option<string>, dbError: Option<string>) returns (result: ActionState)
      modifies this
      ensures ParseHabitName(name).None? ==> result == Failed(HabitNameMessage) && rows == old(rows)
      ensures ParseHabitName(name).Some? && user.None? ==> result == Failed(AuthMessage) && rows == old(rows)
      ensures ParseHabitName(name).Some? && user.Some? && dbError.Some? ==>
        result == Failed(dbError.value) && rows == old(rows)
      ensures ParseHabitName(name).Some? && user.Some? && dbError.None? ==>
        result == Ok && rows == old(rows) + [HabitRow(user.value, ParseHabitName(name).value, false)]
    {
      var parsed := ParseHabitName(name);
      if parsed.None? {
        return Failed(HabitNameMessage);
      }
      if user.None? {
        return Failed(AuthMessage);
      }
      if dbError.Some? {
        return Failed(dbError.value);
      }
      rows := rows + [HabitRow(user.value, parsed.value, false)];
      return Ok;
    }

    /**
     * `applyTemplate`: validate the selection, authenticate, read the user's
     * active names (`queryError` is that read's error), then insert the
     * remaining names in one statement (`insertError` is its error). When
     * nothing remains, nothing is inserted and the result is `Ok`.
     */
    method ApplyTemplate(user: Option<string>, selected: seq<string>, queryError: Option<string>, insertError: Option<string>)
      returns (result: ActionState)
      modifies this
      ensures ParseSelection(selected).None? ==> result == Failed(TemplateMessage) && rows == old(rows)
      ensures ParseSelection(selected).Some? && user.None? ==> result == Failed(AuthMessage) && rows == old(rows)
      ensures ParseSelection(selected).Some? && user.Some? && queryError.Some? ==>
        result == Failed(queryError.value) && rows == old(rows)
      ensures ParseSelection(selected).Some? && user.Some? && queryError.None? ==>
        var names := NamesToInsert(ParseSelection(selected).value, NameKeys(ActiveNames(old(rows), user.value)));
        && (names == [] ==> result == Ok && rows == old(rows))
        && (names != [] && insertError.Some? ==> result == Failed(insertError.value) && rows == old(rows))
        && (names != [] && insertError.None? ==> result == Ok && rows == old(rows) + NewRows(user.value, names))
    {
      var parsed := ParseSelection(selected);
      if parsed.None? {
        return Failed(TemplateMessage);
      }
      if user.None? {
        return Failed(AuthMessage);
      }
      if queryError.Some? {
        return Failed(queryError.value);
      }
      var existing := NameKeys(ActiveNames(rows, user.value));
      var names := NamesToInsert(parsed.value, existing);
      if names == [] {
        return Ok;
      }
      if insertError.Some? {
        return Failed(insertError.value);
      }
      rows := rows + NewRows(user.value, names);
      return Ok;
    }
  }

  // ----- The completion store: a set of (user, habit, day) triples.

  /** One `habit_completions` row; the upsert's conflict target is the whole triple. */
  datatype Completion = Completion(user: string, habit: string, day: string)

  /** The store after deleting (`completed` false) or upserting (`completed` true) one triple. */
  function Updated(rows: set<Completion>, c: Completion, completed: bool): (r: set<Completion>)
    ensures forall x :: x in r <==> (x == c && completed) || (x != c && x in rows)
  {
    if completed then rows + {c} else rows - {c}
  }

  /** Saving the same value twice is saving it once; of two saves the later wins. */
  lemma UpdatedLastWins(rows: set<Completion>, c: Completion, first: bool, second: bool)
    ensures Updated(Updated(rows, c, first), c, second) == Updated(rows, c, second)
    ensures Updated(Updated(rows, c, first), c, first) == Updated(rows, c, first)
  {
  }

  /** Saves of different triples commute. */
  lemma UpdatedCommute(rows: set<Completion>, c: Completion, d: Completion, a: bool, b: bool)
    requires c != d
    ensures Updated(Updated(rows, c, a), d, b) == Updated(Updated(rows, d, b), c, a)
  {
  }

  /** The habits the user completed on the given day, as the tracker page loads them. */
  function CompletedOn(rows: set<Completion>, user: string, day: string): (ids: set<string>)
    ensures forall h :: h in ids <==> Completion(user, h, day) in rows
  {
    set c | c in rows && c.user == user && c.day == day :: c.habit
  }

  /** A save changes the loaded day's completed habits by exactly that one habit. */
  lemma CompletedOnUpdated(rows: set<Completion>, user: string, habit: string, day: string, completed: bool)
    ensures CompletedOn(Updated(rows, Completion(user, habit, day), completed), user, day)
         == if completed then CompletedOn(rows, user, day) + {habit} else CompletedOn(rows, user, day) - {habit}
  {
  }

  class CompletionStore {
    var rows: set<Completion>

    constructor(initial: set<Completion>)
      ensures rows == initial
    {
      rows := initial;
    }

    /**
     * `setHabitCompletion`: the habit id must be a uuid (`isUuid` is that
     * validator) and the day must have the `YYYY-MM-DD` shape; then the user's
     * triple is deleted or upserted.
     */
    method SetHabitCompletion(user: Option<string>, isUuid: string -> bool, habitId: string, day: string,
                              completed: bool, dbError: Option<string>) returns (result: ActionState)
      modifies this
      ensures !(isUuid(habitId) && DaySchema(day)) ==> result == Failed(PayloadMessage) && rows == old(rows)
      ensures isUuid(habitId) && DaySchema(day) && user.None? ==> result == Failed(AuthMessage) && rows == old(rows)
      ensures isUuid(habitId) && DaySchema(day) && user.Some? && dbError.Some? ==>
        result == Failed(dbError.value) && rows == old(rows)
      ensures isUuid(habitId) && DaySchema(day) && user.Some? && dbError.None? ==>
        result == Ok && rows == Updated(old(rows), Completion(user.value, habitId, day), completed)
    {
      if !(isUuid(habitId) && DaySchema(day)) {
        return Failed(PayloadMessage);
      }
      if user.None? {
        return Failed(AuthMessage);
      }
      if dbError.Some? {
        return Failed(dbError.value);
      }
      if !completed {
        rows := rows - {Completion(user.value, habitId, day)};
      } else {
        rows := rows + {Completion(user.value, habitId, day)};
      }
      return Ok;
    }
  }
}
