/** The Home screen: the signed-in user's tasks due on the day selected in the
    calendar, with check-off, delete and edit. */
module Home {
  import opened Common
  import opened Store
  import opened TaskList
  import opened Dates

  /** The screen's hook state (`useState` variables) as fields; the document
      store it writes to is shared with the other screens. */
  class HomeScreen {
    const store: TaskStore
    /** The host's `Date.prototype.toDateString`, left uninterpreted. */
    const toDateString: Date -> string
    var userDate: Date
    var tasks: seq<Task>
    var showComplete: bool
    var showModal: bool
    /** The task being edited; `None` stands for the empty string. */
    var editTask: Option<Task>
    var title: string
    /** The last `navigation.navigate` target. */
    var navigatedTo: Option<Route>

    /** Every list the screen holds comes from a query answer or from
        toggling one, so no two of its tasks share an id. */
    ghost predicate Valid()
      reads this
    {
      UniqueIds(tasks)
    }

    constructor (store: TaskStore, toDateString: Date -> string, today: Date)
      ensures this.store == store && this.toDateString == toDateString
      ensures userDate == today && tasks == [] && !showComplete && !showModal
      ensures editTask == None && title == "" && navigatedTo == None
      ensures Valid()
    {
      this.store := store;
      this.toDateString := toDateString;
      userDate := today;
      tasks := [];
      showComplete := false;
      showModal := false;
      editTask := None;
      title := "";
      navigatedTo := None;
    }

    /** The where-clauses of `fetchTasks`: the user's tasks whose stored date
        string is the selected day's `toDateString()`. */
    function Scope(u: User): Filter
      reads this
    {
      Filter(u.uid, Some(toDateString(userDate)))
    }

    /** The state `fetchTasks` leaves, given the list and navigation before it. */
    ghost predicate Loaded(user: Option<User>, outcome: Outcome, before: seq<Task>, navBefore: Option<Route>)
      reads this, store
    {
      match user
      case None => tasks == before && navigatedTo == Some(Auth)
      case Some(u) =>
        navigatedTo == navBefore &&
        if outcome == Success then
          UniqueIds(tasks) && forall t :: t in tasks <==> Selected(store.docs, Scope(u), t)
        else tasks == before
    }

    /** `fetchTasks`: without a signed-in user, go to the Auth screen; otherwise
        replace the list with the query answer, or keep it if the query fails. */
    method FetchTasks(user: Option<User>, outcome: Outcome)
      requires Valid()
      modifies this`tasks, this`navigatedTo
      ensures Valid()
      ensures Loaded(user, outcome, old(tasks), old(navigatedTo))
      ensures user.Some? && outcome == Success ==>
        forall t :: t in tasks ==> t.userId == user.value.uid && t.date == toDateString(userDate)
    {
      if user.None? {
        navigatedTo := Some(Auth);
        return;
      }
      var rows := store.Query(Scope(user.value), outcome);
      if rows.Some? {
        var fetched := Collect(rows.value);
        CollectedAnswer(rows.value, fetched, store.docs, Scope(user.value));
        tasks := fetched;
      }
    }

    /** `handleCheckboxChange`: update the list first, then the store; if the
        store write fails, write `!newValue` back into the list. */
    method HandleCheckboxChange(taskId: Id, newValue: bool, outcome: Outcome)
      requires Valid()
      modifies this`tasks, store
      ensures Valid()
      ensures outcome == Success && taskId in old(store.docs) ==>
        tasks == Toggled(old(tasks), taskId, newValue) &&
        store.docs == old(store.docs)[taskId := old(store.docs)[taskId].(complete := newValue)] &&
        store.docs[taskId].complete == newValue &&
        (forall t :: t in tasks && t.id == taskId ==> t.complete == newValue)
      ensures !(outcome == Success && taskId in old(store.docs)) ==>
        tasks == Toggled(Toggled(old(tasks), taskId, newValue), taskId, !newValue) &&
        store.docs == old(store.docs)
      ensures !(outcome == Success && taskId in old(store.docs)) ==>
        forall k :: 0 <= k < |old(tasks)| && old(tasks)[k].id == taskId && newValue == !old(tasks)[k].complete ==>
          tasks == old(tasks)
    {
      ghost var before := tasks;
      ToggledKeepsUniqueIds(tasks, taskId, newValue);
      tasks := Toggled(tasks, taskId, newValue);
      var ok := store.UpdateComplete(taskId, newValue, outcome);
      if !ok {
        ToggledKeepsUniqueIds(tasks, taskId, !newValue);
        tasks := Toggled(tasks, taskId, !newValue);
        forall k | 0 <= k < |before| && before[k].id == taskId && newValue == !before[k].complete
          ensures tasks == before
        {
          ClickRollback(before, k);
        }
      }
    }

    /** `handleDelete`: delete the document, then reload; on failure nothing
        changes. */
    method HandleDelete(docId: Id, user: Option<User>, outcome: Outcome, reload: Outcome)
      requires Valid()
      modifies this`tasks, this`navigatedTo, store
      ensures Valid()
      ensures outcome == Failure ==>
        store.docs == old(store.docs) && tasks == old(tasks) && navigatedTo == old(navigatedTo)
      ensures outcome == Success ==>
        store.docs == old(store.docs) - {docId} && Loaded(user, reload, old(tasks), old(navigatedTo))
      ensures outcome == Success && user.Some? && reload == Success ==>
        forall t :: t in tasks ==> t.id != docId
    {
      var ok := store.Delete(docId, outcome);
      if ok {
        FetchTasks(user, reload);
      }
    }

    /** Whether `handleEdit`'s store write goes through: a task is being
        edited, its document exists, and the call succeeds. */
    ghost predicate EditSucceeds(outcome: Outcome)
      reads this, store
    {
      editTask.Some? && editTask.value.id in store.docs && outcome == Success
    }

    /** `handleEdit`: write the typed title (empty or not) to the edited task's
        document, then close the pop-up, clear its state and reload. */
    method HandleEdit(user: Option<User>, outcome: Outcome, reload: Outcome)
      requires Valid()
      modifies this`tasks, this`navigatedTo, this`showModal, this`editTask, this`title, store
      ensures Valid()
      ensures old(EditSucceeds(outcome)) ==>
        store.docs == old(store.docs[editTask.value.id := store.docs[editTask.value.id].(title := title)]) &&
        !showModal && editTask == None && title == "" &&
        Loaded(user, reload, old(tasks), old(navigatedTo))
      ensures !old(EditSucceeds(outcome)) ==>
        store.docs == old(store.docs) && tasks == old(tasks) && navigatedTo == old(navigatedTo) &&
        showModal == old(showModal) && editTask == old(editTask) && title == old(title)
    {
      if editTask.None? {
        return;
      }
      var ok := store.UpdateTitle(editTask.value.id, title, outcome);
      if ok {
        showModal := false;
        editTask := None;
        title := "";
        FetchTasks(user, reload);
      }
    }

    method ShowCompleteTasks()
      requires Valid()
      modifies this`showComplete
      ensures Valid()
      ensures showComplete
    {
      showComplete := true;
    }

    method HideCompleteTasks()
      requires Valid()
      modifies this`showComplete
      ensures Valid()
      ensures !showComplete
    {
      showComplete := false;
    }

    /** The focus effect's cleanup, run when the screen loses focus. */
    method OnBlur()
      requires Valid()
      modifies this`showComplete
      ensures Valid()
      ensures !showComplete
    {
      showComplete := false;
    }

    /** `handleDayPress`: select another day. The focus effect depends on
        `userDate`, so its cleanup and a reload for the new day follow. */
    method HandleDayPress(day: Date, user: Option<User>, outcome: Outcome)
      requires Valid()
      modifies this`userDate, this`showComplete, this`tasks, this`navigatedTo
      ensures Valid()
      ensures userDate == day && !showComplete
      ensures Loaded(user, outcome, old(tasks), old(navigatedTo))
    {
      userDate := day;
      OnBlur();
      FetchTasks(user, outcome);
    }

    /** `handleNewTask` of this screen: go to NewTask and reset the selected
        day to `today`. */
    method HandleNewTask(today: Date)
      requires Valid()
      modifies this`navigatedTo, this`userDate
      ensures Valid()
      ensures navigatedTo == Some(NewTask) && userDate == today
    {
      navigatedTo := Some(NewTask);
      userDate := today;
    }

    /** `handleViewTasks`: go to ViewTasks and reset the selected day. */
    method HandleViewTasks(today: Date)
      requires Valid()
      modifies this`navigatedTo, this`userDate
      ensures Valid()
      ensures navigatedTo == Some(ViewTasks) && userDate == today
    {
      navigatedTo := Some(ViewTasks);
      userDate := today;
    }

    /** A task's edit button: remember the task and open the pop-up. */
    method OpenEdit(task: Task)
      requires Valid()
      modifies this`editTask, this`showModal
      ensures Valid()
      ensures editTask == Some(task) && showModal
    {
      editTask := Some(task);
      showModal := true;
    }

    /** The pop-up's cancel button. */
    method CancelEdit()
      requires Valid()
      modifies this`editTask, this`title, this`showModal
      ensures Valid()
      ensures editTask == None && title == "" && !showModal
    {
      editTask := None;
      title := "";
      showModal := false;
    }

    /** The pop-up's text input; it sets no maximum length. */
    method SetTitle(text: string)
      requires Valid()
      modifies this`title
      ensures Valid()
      ensures title == text
    {
      title := text;
    }

    /** The list the screen renders: the tasks in order, completed ones left
        out unless `showComplete`. */
    function VisibleTasks(): (r: seq<Task>)
      reads this
      ensures IsSubsequence(r, tasks)
      ensures forall t :: t in r <==> t in tasks && (showComplete || !t.complete)
      ensures showComplete ==> r == tasks
    {
      VisibleCases(tasks, showComplete);
      Visible(tasks, showComplete)
    }
  }
}
