/** What the screens receive from outside the app's own code: optional values,
    the outcome of a remote call, the signed-in user, and navigation targets. */
module Common {

  datatype Option<+T> = None | Some(value: T)

  /** Whether a remote call (a store read or write) resolved or threw. */
  datatype Outcome = Success | Failure

  /** The signed-in user of the authentication service; only the uid is read. */
  datatype User = User(uid: string)

  /** The screens of the app's stack navigator. */
  datatype Route = Auth | SignIn | SignUp | Home | NewTask | ViewTasks
}
