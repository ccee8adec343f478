/** Properties of the routine page's state manager: what toggling, deleting,
    starting up and reloading promise, and three scenarios: deleting the
    first of three tasks, first use of the morning routine, and blank input
    to add and edit. */
module RoutineProperties {
  import opened Text
  import opened Storage
  import opened Routine

  /** Toggling the same index twice restores the completed set. */
  lemma ToggledTwice(completed: set<nat>, index: nat)
    ensures Toggled(Toggled(completed, index), index) == completed
  {
  }

  /** The index a row had before the task at `index` was deleted. */
  function OldIndex(k: nat, index: nat): nat {
    if k < index then k else k + 1
  }

  /** Deleting a task keeps every surviving row's text and check mark
      together: row `k` afterwards is the row that stood at `OldIndex(k)`,
      and it is checked exactly when that row was. */
  lemma DeleteKeepsMarksWithTasks(tasks: seq<string>, completed: set<nat>, index: nat, k: nat)
    requires index < |tasks| && k < |tasks| - 1
    ensures k < |Spliced(tasks, index)|
    ensures Spliced(tasks, index)[k] == tasks[OldIndex(k, index)]
    ensures k in Renumbered(completed, index) <==> OldIndex(k, index) in completed
  {
    assert k in Renumbered(completed, index) <==>
           (k < index && k in completed) || (k >= index && k + 1 in completed);
  }

  /** The deleted index leaves no mark behind: no surviving row is checked
      unless the row it was before the delete was checked. */
  lemma RenumberedFromSurvivors(completed: set<nat>, index: nat, k: nat)
    requires k in Renumbered(completed, index)
    ensures OldIndex(k, index) in completed && OldIndex(k, index) != index
  {
  }

  /** Deleting from ["A", "B", "C"] with {1, 2} checked at index 0 leaves
      ["B", "C"] with {0, 1} checked. */
  lemma DeleteFirstOfThree()
    ensures Spliced(["A", "B", "C"], 0) == ["B", "C"]
    ensures Renumbered({1, 2}, 0) == {0, 1}
  {
    var r := Renumbered({1, 2}, 0);
    assert 0 in r && 1 in r;
    forall k: nat | k in r ensures k == 0 || k == 1 {
      assert k + 1 in {1, 2};
    }
  }

  /** The three keys of one routine are distinct, and distinct from the
      other routine's keys. */
  lemma KeysDistinct(routine: string, other: string)
    requires IsRoutineType(routine) && IsRoutineType(other) && routine != other
    ensures TasksKey(routine) != CompletedKey(routine)
    ensures TasksKey(routine) != LastResetKey(routine)
    ensures CompletedKey(routine) != LastResetKey(routine)
    ensures {TasksKey(routine), CompletedKey(routine), LastResetKey(routine)} !!
            {TasksKey(other), CompletedKey(other), LastResetKey(other)}
  {
    assert routine[0] != other[0];
    assert TasksKey(routine)[0] == routine[0] && TasksKey(other)[0] == other[0];
    assert CompletedKey(routine)[0] == routine[0] && CompletedKey(other)[0] == other[0];
    assert LastResetKey(routine)[0] == routine[0] && LastResetKey(other)[0] == other[0];
  }

  predicate SameDay(items: Items, routine: string, today: string) {
    LastResetKey(routine) in items && items[LastResetKey(routine)] == Day(today)
  }

  /** Starting on a new day always yields an empty completed set, removes
      the stored completions and stores `today` as the marker. */
  lemma StartOnNewDay(items: Items, routine: string, today: string)
    requires IsRoutineType(routine) && WellTyped(items, routine)
    requires !SameDay(items, routine, today)
    ensures Start(items, routine, today).completed == {}
    ensures CompletedKey(routine) !in Start(items, routine, today).items
    ensures Start(items, routine, today).items[LastResetKey(routine)] == Day(today)
  {
  }

  /** Starting again on the same day keeps the stored completions. */
  lemma StartOnSameDay(items: Items, routine: string, today: string)
    requires IsRoutineType(routine) && WellTyped(items, routine)
    requires SameDay(items, routine, today)
    ensures Start(items, routine, today).completed ==
            if CompletedKey(routine) in items then items[CompletedKey(routine)].indices else {}
    ensures Start(items, routine, today).items[LastResetKey(routine)] == Day(today)
  {
  }

  /** With no stored task list the routine's defaults become the list and
      are stored; a stored list is loaded as it is. */
  lemma StartSeedsDefaults(items: Items, routine: string, today: string)
    requires IsRoutineType(routine) && WellTyped(items, routine)
    ensures TasksKey(routine) !in items ==>
              && Start(items, routine, today).tasks == DefaultTasks(routine)
              && Start(items, routine, today).items[TasksKey(routine)] == TaskList(DefaultTasks(routine))
    ensures TasksKey(routine) in items ==>
              && Start(items, routine, today).tasks == items[TasksKey(routine)].tasks
              && Start(items, routine, today).items[TasksKey(routine)] == items[TasksKey(routine)]
  {
  }

  /** Starting a routine leaves every key outside its namespace alone. */
  lemma StartTouchesOnlyOwnKeys(items: Items, routine: string, today: string, key: string)
    requires IsRoutineType(routine) && WellTyped(items, routine)
    requires key != TasksKey(routine) && key != CompletedKey(routine) && key != LastResetKey(routine)
    ensures key in Start(items, routine, today).items <==> key in items
    ensures key in items ==> Start(items, routine, today).items[key] == items[key]
  {
  }

  /** A morning routine on an empty store starts with the six morning tasks
      in order, nothing completed, and the store holding the list and the
      marker. */
  lemma MorningFirstUse(today: string)
    ensures Start(map[], "morning", today) ==
            Startup([ "Wake up and make bed",
                      "Drink a glass of water",
                      "Morning exercise or stretch",
                      "Shower and get dressed",
                      "Healthy breakfast",
                      "Review daily goals" ],
                    {},
                    map[LastResetKey("morning") := Day(today),
                        TasksKey("morning") := TaskList(DefaultTasks("morning"))])
  {
    KeysDistinct("morning", "evening");
  }

  /** A store mirrored by a state whose completed indices are in range is
      consistent. */
  lemma PersistedIsConsistent(state: RoutineState)
    requires state.Valid() && state.InRange()
    ensures Consistent(state.store.items, state.routine)
  {
  }

  /** Starting from a consistent store yields completed indices that are
      all indices into the loaded task list. */
  lemma StartInRange(items: Items, routine: string, today: string)
    requires IsRoutineType(routine) && Consistent(items, routine)
    ensures forall j :: j in Start(items, routine, today).completed ==> j < |Start(items, routine, today).tasks|
  {
  }

  /** Reloading the page on the same day reproduces the task list, the
      completed set and the store exactly. */
  lemma ReloadRestores(state: RoutineState, today: string)
    requires state.Valid() && SameDay(state.store.items, state.routine, today)
    ensures WellTyped(state.store.items, state.routine)
    ensures Start(state.store.items, state.routine, today) ==
            Startup(state.tasks, state.completed, state.store.items)
  {
  }

  /** The input "   " trims to the empty text. */
  lemma TrimBlank()
    ensures Trim("   ") == []
  {
    assert AllWhitespace("   ");
    TrimEmptyIff("   ");
  }

  /** Whitespace in front of a text that starts with a non-whitespace
      character is exactly what `trim` counts as leading whitespace. */
  lemma {:induction false} LeadingOfPadded(pre: string, u: string)
    requires AllWhitespace(pre) && u != [] && !IsWhitespace(u[0])
    ensures LeadingWhitespace(pre + u) == |pre|
  {
    if pre == [] {
      assert pre + u == u;
    } else {
      assert (pre + u)[0] == pre[0];
      assert (pre + u)[1..] == pre[1..] + u;
      LeadingOfPadded(pre[1..], u);
    }
  }

  /** Whitespace after a text that ends with a non-whitespace character is
      exactly what `trim` counts as trailing whitespace. */
  lemma {:induction false} TrailingOfPadded(u: string, post: string)
    requires AllWhitespace(post) && u != [] && !IsWhitespace(u[|u| - 1])
    ensures TrailingWhitespace(u + post) == |post|
  {
    if post == [] {
      assert u + post == u;
    } else {
      var s := u + post;
      assert s[|s| - 1] == post[|post| - 1];
      assert s[..|s| - 1] == u + post[..|post| - 1];
      TrailingOfPadded(u, post[..|post| - 1]);
    }
  }

  /** Trimming a text in trimmed form, padded on both sides with any
      whitespace, gives back exactly that text. */
  lemma TrimSurrounded(pre: string, text: string, post: string)
    requires AllWhitespace(pre) && AllWhitespace(post) && IsTrimmed(text)
    ensures Trim(pre + text + post) == text
  {
    var s := pre + text + post;
    if text == [] {
      assert s == pre + post;
      assert AllWhitespace(s) by {
        forall k | 0 <= k < |s| ensures IsWhitespace(s[k]) {
          if k < |pre| { assert s[k] == pre[k]; } else { assert s[k] == post[k - |pre|]; }
        }
      }
      TrimEmptyIff(s);
    } else {
      assert s == pre + (text + post);
      LeadingOfPadded(pre, text + post);
      assert s[|pre|..] == text + post;
      TrailingOfPadded(text, post);
      assert (text + post)[..|text|] == text;
    }
  }

  /** A full session: start on a store holding ["A", "B", "C"] with {1, 2}
      checked today, delete the first task, then reload. */
  method DeleteAndReload(today: string) {
    var items := map[TasksKey("morning") := TaskList(["A", "B", "C"]),
                     CompletedKey("morning") := IndexSet({1, 2}),
                     LastResetKey("morning") := Day(today)];
    KeysDistinct("morning", "evening");
    var store := new Store(items);
    var state := new RoutineState(store, "morning", today);
    assert state.tasks == ["A", "B", "C"] && state.completed == {1, 2};
    state.DeleteTask(0, true);
    DeleteFirstOfThree();
    assert state.tasks == ["B", "C"] && state.completed == {0, 1};
    ReloadRestores(state, today);
    var reloaded := new RoutineState(store, "morning", today);
    assert reloaded.tasks == ["B", "C"] && reloaded.completed == {0, 1};
  }

  /** Toggling a task twice restores the completed set, and toggling edit
      mode twice renders the same rows. */
  method ToggleTwiceRestores(state: RoutineState, index: nat) returns (before: seq<Row>, after: seq<Row>)
    requires state.Valid()
    modifies state, state.store
    ensures state.completed == old(state.completed) && state.editMode == old(state.editMode)
    ensures state.tasks == old(state.tasks)
    ensures after == before
  {
    before := state.RenderTasks();
    state.ToggleTask(index);
    state.ToggleTask(index);
    ToggledTwice(old(state.completed), index);
    state.ToggleEditMode();
    state.ToggleEditMode();
    after := state.RenderTasks();
  }

  /** Whitespace-only input neither adds a task nor edits one, at any
      index, and leaves the store unchanged. */
  method BlankInputIsIgnored(state: RoutineState, index: nat, input: string)
    requires state.Valid() && AllWhitespace(input) && index < |state.tasks|
    modifies state, state.store
    ensures state.tasks == old(state.tasks) && state.store.items == old(state.store.items)
  {
    TrimEmptyIff(input);
    state.AddTask(input);
    state.SaveEdit(index, state.tasks[index], input);
  }
  /** Two open tabs of the morning routine share one store but never reread
      it. Both start on ["A", "B", "C"] with nothing checked; tab A deletes
      task 0 and writes ["B", "C"] and {}; tab B, still showing three rows,
      toggles index 2 and writes {2}. The resulting store is not
      consistent: index 2 is past the end of the stored list. */
  lemma TwoTabsBreakConsistency(today: string)
    ensures var start := map[TasksKey("morning") := TaskList(["A", "B", "C"]),
                             LastResetKey("morning") := Day(today)];
            var afterA := start[TasksKey("morning") := TaskList(Spliced(["A", "B", "C"], 0))]
                               [CompletedKey("morning") := IndexSet(Renumbered({}, 0))];
            var afterB := afterA[CompletedKey("morning") := IndexSet(Toggled({}, 2))];
            Consistent(start, "morning") && !Consistent(afterB, "morning")
  {
    KeysDistinct("morning", "evening");
    DeleteFirstOfThree();
    assert 2 in Toggled({}, 2);
  }
  /** A page left open past midnight still stores its toggles beside
      yesterday's marker; the next start-up on another day clears them. */
  lemma ChecksAfterMidnightLost(items: Items, routine: string, yesterday: string, today: string,
                                completed: set<nat>, index: nat)
    requires IsRoutineType(routine) && WellTyped(items, routine)
    requires SameDay(items, routine, yesterday) && today != yesterday
    ensures Start(items[CompletedKey(routine) := IndexSet(Toggled(completed, index))], routine, today).completed == {}
  {
    var toggled := items[CompletedKey(routine) := IndexSet(Toggled(completed, index))];
    assert LastResetKey(routine) != CompletedKey(routine);
    assert toggled[LastResetKey(routine)] == Day(yesterday) != Day(today);
    StartOnNewDay(toggled, routine, today);
  }
}
