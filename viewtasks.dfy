/** The ViewTasks screen: all of the signed-in user's tasks, whatever their
    date, with the same check-off, delete and edit handlers as Home. */
module ViewTasks {
  import opened Common
  import opened Store
  import opened TaskList

  class ViewTasksScreen {
    const store: TaskStore
    var tasks: seq<Task>
    var showComplete: bool
    var showModal: bool
    /** The task being edited; `None` stands for the empty string. */
    var editTask: Option<Task>
    var title: string
    /** The last `navigation.navigate` target. */
    var navigatedTo: Option<Route>

    /** Every list the screen holds comes from a query answer or from
        toggling one, so no two of its tasks share an id. */
    ghost predicate Valid()
      reads this
    {
      UniqueIds(tasks)
    }

    constructor (store: TaskStore)
      ensures this.store == store
      ensures tasks == [] && !showComplete && !showModal
      ensures editTask == None && title == "" && navigatedTo == None
      ensures Valid()
    {
      this.store := store;
      tasks := [];
      showComplete := false;
      showModal := false;
      editTask := None;
      title := "";
      navigatedTo := None;
    }

    /** The where-clause of this screen's `fetchTasks`: the owner only. */
    static function Scope(u: User): Filter {
      Filter(u.uid, None)
    }

    /** The state `fetchTasks` leaves, given the list and navigation before it. */
    ghost predicate Loaded(user: Option<User>, outcome: Outcome, before: seq<Task>, navBefore: Option<Route>)
      reads this, store
    {
      match user
      case None => tasks == before && navigatedTo == Some(Auth)
      case Some(u) =>
        navigatedTo == navBefore &&
        if outcome == Success then
          UniqueIds(tasks) && forall t :: t in tasks <==> Selected(store.docs, Scope(u), t)
        else tasks == before
    }

    /** `fetchTasks`: without a signed-in user, go to the Auth screen; otherwise
        replace the list with every task the user owns, or keep it if the
        query fails. */
    method FetchTasks(user: Option<User>, outcome: Outcome)
      requires Valid()
      modifies this`tasks, this`navigatedTo
      ensures Valid()
      ensures Loaded(user, outcome, old(tasks), old(navigatedTo))
      ensures user.Some? && outcome == Success ==>
        forall id :: id in store.docs && store.docs[id].userId == user.value.uid ==>
          exists t :: t in tasks && t.id == id
    {
      if user.None? {
        navigatedTo := Some(Auth);
        return;
      }
      var rows := store.Query(Scope(user.value), outcome);
      if rows.Some? {
        var fetched := Collect(rows.value);
        CollectedAnswer(rows.value, fetched, store.docs, Scope(user.value));
        tasks := fetched;
        forall id | id in store.docs && store.docs[id].userId == user.value.uid
          ensures exists t :: t in tasks && t.id == id
        {
          var r := store.docs[id];
          var t := Task(id, r.userId, r.title, r.date, r.complete);
          assert Selected(store.docs, Scope(user.value), t);
        }
      }
    }

    /** `handleCheckboxChange`: update the list first, then the store; if the
        store write fails, write `!newValue` back into the list. */
    method HandleCheckboxChange(taskId: Id, newValue: bool, outcome: Outcome)
      requires Valid()
      modifies this`tasks, store
      ensures Valid()
      ensures outcome == Success && taskId in old(store.docs) ==>
        tasks == Toggled(old(tasks), taskId, newValue) &&
        store.docs == old(store.docs)[taskId := old(store.docs)[taskId].(complete := newValue)] &&
        store.docs[taskId].complete == newValue &&
        (forall t :: t in tasks && t.id == taskId ==> t.complete == newValue)
      ensures !(outcome == Success && taskId in old(store.docs)) ==>
        tasks == Toggled(Toggled(old(tasks), taskId, newValue), taskId, !newValue) &&
        store.docs == old(store.docs)
      ensures !(outcome == Success && taskId in old(store.docs)) ==>
        forall k :: 0 <= k < |old(tasks)| && old(tasks)[k].id == taskId && newValue == !old(tasks)[k].complete ==>
          tasks == old(tasks)
    {
      ghost var before := tasks;
      ToggledKeepsUniqueIds(tasks, taskId, newValue);
      tasks := Toggled(tasks, taskId, newValue);
      var ok := store.UpdateComplete(taskId, newValue, outcome);
      if !ok {
        ToggledKeepsUniqueIds(tasks, taskId, !newValue);
        tasks := Toggled(tasks, taskId, !newValue);
        forall k | 0 <= k < |before| && before[k].id == taskId && newValue == !before[k].complete
          ensures tasks == before
        {
          ClickRollback(before, k);
        }
      }
    }

    /** `handleDelete`: delete the document, then reload; on failure nothing
        changes. */
    method HandleDelete(docId: Id, user: Option<User>, outcome: Outcome, reload: Outcome)
      requires Valid()
      modifies this`tasks, this`navigatedTo, store
      ensures Valid()
      ensures outcome == Failure ==>
        store.docs == old(store.docs) && tasks == old(tasks) && navigatedTo == old(navigatedTo)
      ensures outcome == Success ==>
        store.docs == old(store.docs) - {docId} && Loaded(user, reload, old(tasks), old(navigatedTo))
      ensures outcome == Success && user.Some? && reload == Success ==>
        forall t :: t in tasks ==> t.id != docId
    {
      var ok := store.Delete(docId, outcome);
      if ok {
        FetchTasks(user, reload);
      }
    }

    /** Whether `handleEdit`'s store write goes through: a task is being
        edited, its document exists, and the call succeeds. */
    ghost predicate EditSucceeds(outcome: Outcome)
      reads this, store
    {
      editTask.Some? && editTask.value.id in store.docs && outcome == Success
    }

    /** `handleEdit`: write the typed title (empty or not) to the edited task's
        document, then close the pop-up, clear its state and reload. */
    method HandleEdit(user: Option<User>, outcome: Outcome, reload: Outcome)
      requires Valid()
      modifies this`tasks, this`navigatedTo, this`showModal, this`editTask, this`title, store
      ensures Valid()
      ensures old(EditSucceeds(outcome)) ==>
        store.docs == old(store.docs[editTask.value.id := store.docs[editTask.value.id].(title := title)]) &&
        !showModal && editTask == None && title == "" &&
        Loaded(user, reload, old(tasks), old(navigatedTo))
      ensures !old(EditSucceeds(outcome)) ==>
        store.docs == old(store.docs) && tasks == old(tasks) && navigatedTo == old(navigatedTo) &&
        showModal == old(showModal) && editTask == old(editTask) && title == old(title)
    {
      if editTask.None? {
        return;
      }
      var ok := store.UpdateTitle(editTask.value.id, title, outcome);
      if ok {
        showModal := false;
        editTask := None;
        title := "";
        FetchTasks(user, reload);
      }
    }

    method ShowCompleteTasks()
      requires Valid()
      modifies this`showComplete
      ensures Valid()
      ensures showComplete
    {
      showComplete := true;
    }

    method HideCompleteTasks()
      requires Valid()
      modifies this`showComplete
      ensures Valid()
      ensures !showComplete
    {
      showComplete := false;
    }

    /** The focus effect's cleanup: leaving the screen hides completed tasks
        again. */
    method OnBlur()
      requires Valid()
      modifies this`showComplete
      ensures Valid()
      ensures !showComplete
    {
      showComplete := false;
    }

    /** The back button. */
    method Back()
      requires Valid()
      modifies this`navigatedTo
      ensures Valid()
      ensures navigatedTo == Some(Home)
    {
      navigatedTo := Some(Home);
    }

    method HandleNewTask()
      requires Valid()
      modifies this`navigatedTo
      ensures Valid()
      ensures navigatedTo == Some(NewTask)
    {
      navigatedTo := Some(NewTask);
    }

    /** A task's edit button: remember the task and open the pop-up. */
    method OpenEdit(task: Task)
      requires Valid()
      modifies this`editTask, this`showModal
      ensures Valid()
      ensures editTask == Some(task) && showModal
    {
      editTask := Some(task);
      showModal := true;
    }

    /** The pop-up's cancel button. */
    method CancelEdit()
      requires Valid()
      modifies this`editTask, this`title, this`showModal
      ensures Valid()
      ensures editTask == None && title == "" && !showModal
    {
      editTask := None;
      title := "";
      showModal := false;
    }

    /** The pop-up's text input; it sets no maximum length. */
    method SetTitle(text: string)
      requires Valid()
      modifies this`title
      ensures Valid()
      ensures title == text
    {
      title := text;
    }

    /** The list the screen renders: the tasks in order, completed ones left
        out unless `showComplete`. */
    function VisibleTasks(): (r: seq<Task>)
      reads this
      ensures IsSubsequence(r, tasks)
      ensures forall t :: t in r <==> t in tasks && (showComplete || !t.complete)
      ensures !showComplete ==> forall t :: t in r ==> !t.complete
    {
      Visible(tasks, showComplete)
    }
  }
}
