/** The NewTask screen: a form with a title (at most 30 characters) and a
    date, which adds a task for the signed-in user. */
module NewTask {
  import opened Common
  import opened Store
  import opened Dates

  /** The most characters the title input accepts. */
  const MaxTitleLength := 30

  class NewTaskScreen {
    const store: TaskStore
    /** The host's `Date.prototype.toDateString`, left uninterpreted. */
    const toDateString: Date -> string
    var title: string
    var date: Date
    /** The last `navigation.navigate` target. */
    var navigatedTo: Option<Route>

    ghost predicate Valid()
      reads this
    {
      |title| <= MaxTitleLength
    }

    constructor (store: TaskStore, toDateString: Date -> string, today: Date)
      ensures Valid()
      ensures this.store == store && this.toDateString == toDateString
      ensures title == "" && date == today && navigatedTo == None
    {
      this.store := store;
      this.toDateString := toDateString;
      title := "";
      date := today;
      navigatedTo := None;
    }

    /** The title input; it refuses text beyond its maximum length. */
    method SetTitle(text: string)
      requires |text| <= MaxTitleLength
      modifies this`title
      ensures Valid() && title == text
    {
      title := text;
    }

    /** `handleDateChange`: the date picker's new value. */
    method HandleDateChange(selected: Date)
      modifies this`date
      ensures date == selected
    {
      date := selected;
    }

    /** `handleCancel`: go back to Home and clear the form; the store is not
        touched. */
    method HandleCancel(today: Date)
      modifies this`navigatedTo, this`title, this`date
      ensures Valid()
      ensures navigatedTo == Some(Home) && title == "" && date == today
    {
      navigatedTo := Some(Home);
      title := "";
      date := today;
    }

    /** `handleNewTask`: with an empty title, nothing happens; without a
        signed-in user, go to SignIn; otherwise add an incomplete task for the
        user on the chosen date and go to Home, or stay if the write fails. */
    method HandleNewTask(user: Option<User>, outcome: Outcome) returns (created: Option<Id>)
      requires Valid()
      modifies this`navigatedTo, store
      ensures created.Some? <==> title != "" && user.Some? && outcome == Success
      ensures created.Some? ==>
        created.value !in old(store.docs) &&
        store.docs == old(store.docs)[created.value := Record(user.value.uid, title, toDateString(date), false)] &&
        navigatedTo == Some(Home)
      ensures created.Some? ==> 1 <= |store.docs[created.value].title| <= MaxTitleLength
      ensures created.None? ==> store.docs == old(store.docs)
      ensures title == "" ==> navigatedTo == old(navigatedTo)
      ensures title != "" && user.None? ==> navigatedTo == Some(SignIn)
      ensures title != "" && user.Some? && outcome == Failure ==> navigatedTo == old(navigatedTo)
    {
      created := None;
      if title != "" {
        if user.Some? {
          var record := Record(user.value.uid, title, toDateString(date), false);
          created := store.Add(record, outcome);
          if created.Some? {
            navigatedTo := Some(Home);
          }
        } else {
          navigatedTo := Some(SignIn);
        }
      }
    }
  }
}
