/** The routine checklist page (routine.js): an ordered task list, the set
    of indices checked off today and an edit-mode flag, persisted under keys
    namespaced by the routine type and cleared of completions once a day. */
module Routine {
  import opened Text
  import opened Storage

  /** The routine types that have a default task list. */
  predicate IsRoutineType(routine: string) {
    routine == "morning" || routine == "evening"
  }

  function TasksKey(routine: string): string { routine + "_tasks" }
  function CompletedKey(routine: string): string { routine + "_completed" }
  function LastResetKey(routine: string): string { routine + "_last_reset" }

  /** The seed list a routine starts from on first use. Each entry is a
      non-empty text in trimmed form, the shape `addTask` would store. */
  function DefaultTasks(routine: string): (r: seq<string>)
    requires IsRoutineType(routine)
    ensures |r| == 6
    ensures forall k :: 0 <= k < |r| ==> r[k] != [] && IsTrimmed(r[k])
  {
    if routine == "morning" then
      [ "Wake up and make bed",
        "Drink a glass of water",
        "Morning exercise or stretch",
        "Shower and get dressed",
        "Healthy breakfast",
        "Review daily goals" ]
    else
      [ "Prepare tomorrow's clothes",
        "Pack bag for tomorrow",
        "Tidy living space",
        "Skincare routine",
        "Read or journal",
        "Lights out by bedtime" ]
  }

  /** The completed set with `index` checked or unchecked: membership of
      `index` flips and no other index changes. */
  function Toggled(completed: set<nat>, index: nat): (r: set<nat>)
    ensures index in r <==> index !in completed
    ensures forall j :: j != index ==> (j in r <==> j in completed)
  {
    if index in completed then completed - {index} else completed + {index}
  }

  /** `tasks.splice(index, 1)`: the list without the entry at `index`; an
      index past the end removes nothing. Entries before `index` keep their
      position and entries after it move down by one. */
  function Spliced(tasks: seq<string>, index: nat): (r: seq<string>)
    ensures index < |tasks| ==> |r| == |tasks| - 1
    ensures index >= |tasks| ==> r == tasks
    ensures forall k :: 0 <= k < index && k < |r| ==> r[k] == tasks[k]
    ensures forall k :: index <= k < |r| ==> r[k] == tasks[k + 1]
  {
    if index < |tasks| then tasks[..index] + tasks[index + 1..] else tasks
  }

  /** The completed set after the task at `index` is deleted: indices below
      `index` stay, indices above it move down by one, `index` itself goes. */
  function Renumbered(completed: set<nat>, index: nat): (r: set<nat>)
    ensures forall k: nat :: k in r <==> (k < index && k in completed) || (k >= index && k + 1 in completed)
  {
    set j | j in completed && j != index :: (if j > index then j - 1 else j) as nat
  }

  /** The `forEach` loop of `deleteTask` that builds `newCompleted`, one
      old index at a time. */
  method RenumberCompleted(completed: set<nat>, index: nat) returns (renumbered: set<nat>)
    ensures renumbered == Renumbered(completed, index)
  {
    renumbered := {};
    var rest := completed;
    while rest != {}
      invariant rest <= completed
      invariant renumbered == Renumbered(completed - rest, index)
      decreases |rest|
    {
      var i :| i in rest;
      RenumberedInsert(completed - rest, i, index);
      if i > index {
        renumbered := renumbered + {i - 1};
      } else if i < index {
        renumbered := renumbered + {i};
      }
      assert completed - (rest - {i}) == (completed - rest) + {i};
      rest := rest - {i};
    }
    assert completed - rest == completed;
  }

  /** Renumbering one more old index adds at most its new number. */
  lemma RenumberedInsert(done: set<nat>, j: nat, index: nat)
    ensures Renumbered(done + {j}, index) ==
            Renumbered(done, index) + (if j > index then {j - 1} else if j < index then {j} else {})
  {
    var added: set<nat> := if j > index then {j - 1} else if j < index then {j} else {};
    forall k: nat
      ensures k in Renumbered(done + {j}, index) <==> k in Renumbered(done, index) + added
    {
      assert k in Renumbered(done + {j}, index) <==>
             (k < index && k in done + {j}) || (k >= index && k + 1 in done + {j});
      assert k in Renumbered(done, index) <==>
             (k < index && k in done) || (k >= index && k + 1 in done);
    }
  }

  /** The shapes this page itself writes under the routine's keys: a task
      list under the tasks key and a list of indices under the completed
      key. Other stored shapes are not modelled. */
  predicate WellTyped(items: Items, routine: string) {
    && (TasksKey(routine) in items ==> items[TasksKey(routine)].TaskList?)
    && (CompletedKey(routine) in items ==> items[CompletedKey(routine)].IndexSet?)
  }

  /** A store as this page writes it: completions are only stored beside a
      task list, and every stored completed index is an index into it. */
  predicate Consistent(items: Items, routine: string) {
    && WellTyped(items, routine)
    && (CompletedKey(routine) in items ==>
          && TasksKey(routine) in items
          && forall j :: j in items[CompletedKey(routine)].indices ==> j < |items[TasksKey(routine)].tasks|)
  }

  /** The state `init` leaves behind, as a value. */
  datatype Startup = Startup(tasks: seq<string>, completed: set<nat>, items: Items)

  /** `init` without the DOM: the daily reset, then `loadTasks` (seeding the
      defaults when nothing is stored), then `loadCompleted`. */
  function Start(items: Items, routine: string, today: string): (r: Startup)
    requires IsRoutineType(routine) && WellTyped(items, routine)
  {
    var sameDay := LastResetKey(routine) in items && items[LastResetKey(routine)] == Day(today);
    var reset := if sameDay then items else (items - {CompletedKey(routine)})[LastResetKey(routine) := Day(today)];
    var tasks := if TasksKey(routine) in reset then reset[TasksKey(routine)].tasks else DefaultTasks(routine);
    var seeded := if TasksKey(routine) in reset then reset else reset[TasksKey(routine) := TaskList(tasks)];
    var completed := if CompletedKey(routine) in seeded then seeded[CompletedKey(routine)].indices else {};
    Startup(tasks, completed, seeded)
  }

  /** One rendered task row: its text, whether its checkbox is checked
      (the row is then also styled as completed), and whether the edit and
      delete buttons are shown. */
  datatype Row = Row(text: string, checked: bool, editControls: bool)

  /** The page's module-level state together with the store it mirrors. */
  class RoutineState {
    const routine: string
    const store: Store
    var tasks: seq<string>
    var completed: set<nat>
    var editMode: bool

    /** The in-memory task list and completed set are what the store holds
        for this routine; no completed key means nothing is completed. */
    ghost predicate Valid()
      reads this, store
    {
      && IsRoutineType(routine)
      && TasksKey(routine) in store.items
      && store.items[TasksKey(routine)] == TaskList(tasks)
      && (if CompletedKey(routine) in store.items
          then store.items[CompletedKey(routine)] == IndexSet(completed)
          else completed == {})
    }

    /** Every completed index is an index into the task list. */
    ghost predicate InRange()
      reads this
    {
      forall j :: j in completed ==> j < |tasks|
    }

    /** `init`: the initial state (no tasks, nothing completed, edit mode
        off), then `checkAndResetDaily`,
        `loadTasks` and `loadCompleted` against the store. */
    constructor (store: Store, routine: string, today: string)
      requires IsRoutineType(routine) && WellTyped(store.items, routine)
      modifies store
      ensures this.routine == routine && this.store == store && !editMode
      ensures Valid()
      ensures Startup(tasks, completed, store.items) == Start(old(store.items), routine, today)
      ensures Consistent(old(store.items), routine) ==> InRange()
    {
      this.routine := routine;
      this.store := store;
      tasks := [];
      completed := {};
      editMode := false;
      new;
      CheckAndResetDaily(today);
      LoadTasks();
      LoadCompleted();
    }

    /** On a new day (the stored marker is not `today`) the stored and the
        in-memory completions are cleared and the marker becomes `today`. */
    method CheckAndResetDaily(today: string)
      modifies this`completed, store
      ensures old(store.GetItem(LastResetKey(routine))) == Some(Day(today)) ==>
                store.items == old(store.items) && completed == old(completed)
      ensures old(store.GetItem(LastResetKey(routine))) != Some(Day(today)) ==>
                && store.items == (old(store.items) - {CompletedKey(routine)})[LastResetKey(routine) := Day(today)]
                && completed == {}
    {
      var lastReset := store.GetItem(LastResetKey(routine));
      if lastReset != Some(Day(today)) {
        store.RemoveItem(CompletedKey(routine));
        store.SetItem(LastResetKey(routine), Day(today));
        completed := {};
      }
    }

    /** Loads the stored task list, or on first use seeds the routine's
        defaults and stores them. */
    method LoadTasks()
      requires IsRoutineType(routine) && WellTyped(store.items, routine)
      modifies this`tasks, store
      ensures TasksKey(routine) in old(store.items) ==>
                tasks == old(store.items)[TasksKey(routine)].tasks && store.items == old(store.items)
      ensures TasksKey(routine) !in old(store.items) ==>
                tasks == DefaultTasks(routine) && store.items == old(store.items)[TasksKey(routine) := TaskList(tasks)]
    {
      var stored := store.GetItem(TasksKey(routine));
      if stored.Some? {
        tasks := stored.value.tasks;
      } else {
        tasks := DefaultTasks(routine);
        SaveTasks();
      }
    }

    method SaveTasks()
      modifies store
      ensures store.items == old(store.items)[TasksKey(routine) := TaskList(tasks)]
    {
      store.SetItem(TasksKey(routine), TaskList(tasks));
    }

    /** Loads the stored completed set; with nothing stored the in-memory
        set is left as it is. */
    method LoadCompleted()
      requires WellTyped(store.items, routine)
      modifies this`completed
      ensures CompletedKey(routine) in store.items ==> completed == store.items[CompletedKey(routine)].indices
      ensures CompletedKey(routine) !in store.items ==> completed == old(completed)
    {
      var stored := store.GetItem(CompletedKey(routine));
      if stored.Some? {
        completed := stored.value.indices;
      }
    }

    method SaveCompleted()
      modifies store
      ensures store.items == old(store.items)[CompletedKey(routine) := IndexSet(completed)]
    {
      store.SetItem(CompletedKey(routine), IndexSet(completed));
    }

    /** Checks or unchecks the task at `index` and stores the completed set. */
    method ToggleTask(index: nat)
      requires Valid()
      modifies this`completed, store
      ensures Valid()
      ensures completed == Toggled(old(completed), index)
      ensures store.items == old(store.items)[CompletedKey(routine) := IndexSet(completed)]
      ensures old(InRange()) && index < |tasks| ==> InRange()
    {
      if index in completed {
        completed := completed - {index};
      } else {
        completed := completed + {index};
      }
      SaveCompleted();
    }

    /** Deletes the task at `index` when the user confirms, renumbers the
        completed indices after it and stores both; a declined confirmation
        changes nothing. */
    method DeleteTask(index: nat, confirmed: bool)
      requires Valid()
      modifies this`tasks, this`completed, store
      ensures Valid()
      ensures !confirmed ==> tasks == old(tasks) && completed == old(completed) && store.items == old(store.items)
      ensures confirmed ==>
                && tasks == Spliced(old(tasks), index)
                && completed == Renumbered(old(completed), index)
                && store.items == old(store.items)[TasksKey(routine) := TaskList(tasks)][CompletedKey(routine) := IndexSet(completed)]
      ensures old(InRange()) ==> InRange()
    {
      if confirmed {
        ghost var before := completed;
        if index < |tasks| {
          tasks := tasks[..index] + tasks[index + 1..];
        }
        completed := completed - {index};
        completed := RenumberCompleted(completed, index);
        assert completed == Renumbered(before, index) by {
          forall k: nat ensures k in Renumbered(before - {index}, index) <==> k in Renumbered(before, index) {
            assert k in Renumbered(before - {index}, index) <==>
                   (k < index && k in before - {index}) || (k >= index && k + 1 in before - {index});
            assert k in Renumbered(before, index) <==>
                   (k < index && k in before) || (k >= index && k + 1 in before);
          }
        }
        SaveTasks();
        SaveCompleted();
        if old(InRange()) {
          RenumberedInRange(before, index, |old(tasks)|);
        }
      }
    }

    /** `saveEdit`, the commit of an in-place edit: `currentText` is the text
        `editTask` read when the edit began. The entry is replaced by the
        trimmed input only when that is non-empty and differs from
        `currentText`, and only then is the list stored. */
    method SaveEdit(index: nat, currentText: string, input: string)
      requires Valid() && index < |tasks|
      modifies this`tasks, store
      ensures Valid()
      ensures Trim(input) != [] && Trim(input) != currentText ==>
                tasks == old(tasks)[index := Trim(input)] && store.items == old(store.items)[TasksKey(routine) := TaskList(tasks)]
      ensures Trim(input) == [] || Trim(input) == currentText ==>
                tasks == old(tasks) && store.items == old(store.items)
      ensures old(InRange()) ==> InRange()
    {
      var newText := Trim(input);
      if newText != [] && newText != currentText {
        tasks := tasks[index := newText];
        SaveTasks();
      }
    }

    /** Appends the trimmed input as the last task, unless it is empty. */
    method AddTask(input: string)
      requires Valid()
      modifies this`tasks, store
      ensures Valid()
      ensures Trim(input) != [] ==>
                tasks == old(tasks) + [Trim(input)] && store.items == old(store.items)[TasksKey(routine) := TaskList(tasks)]
      ensures Trim(input) == [] ==> tasks == old(tasks) && store.items == old(store.items)
      ensures old(InRange()) ==> InRange()
    {
      var text := Trim(input);
      if text != [] {
        tasks := tasks + [text];
        SaveTasks();
      }
    }

    method ToggleEditMode()
      modifies this`editMode
      ensures old(Valid()) ==> Valid()
      ensures editMode == !old(editMode)
    {
      editMode := !editMode;
    }

    /** `createTaskElement` reduced to what the row shows. */
    function CreateTaskElement(task: string, index: nat): Row
      reads this
    {
      Row(task, index in completed, editMode)
    }

    /** `renderTasks`: one row per task in list order; row `k` shows task
        `k`, is checked exactly when `k` is completed, and shows the edit
        and delete buttons exactly in edit mode. */
    method RenderTasks() returns (rows: seq<Row>)
      ensures |rows| == |tasks|
      ensures forall k :: 0 <= k < |rows| ==>
                && rows[k].text == tasks[k]
                && (rows[k].checked <==> k in completed)
                && (rows[k].editControls <==> editMode)
    {
      rows := [];
      var index := 0;
      while index < |tasks|
        invariant index <= |tasks| && |rows| == index
        invariant forall k :: 0 <= k < index ==> rows[k] == CreateTaskElement(tasks[k], k)
      {
        rows := rows + [CreateTaskElement(tasks[index], index)];
        index := index + 1;
      }
    }
  }

  /** Renumbering keeps every completed index inside the shortened list. */
  lemma RenumberedInRange(completed: set<nat>, index: nat, n: nat)
    requires forall j :: j in completed ==> j < n
    ensures forall k :: k in Renumbered(completed, index) ==> k < if index < n then n - 1 else n
  {
    forall k | k in Renumbered(completed, index)
      ensures k < if index < n then n - 1 else n
    {
      if k >= index {
        assert k + 1 in completed;
      }
    }
  }
}
