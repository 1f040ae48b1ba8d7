/** Who is calling: the user loader, the two access gates stacked on the
    protected routes of app.py, and the username lookup used by register and
    login. */
module Auth {
  import opened Records
  import opened Responses

  /** `load_user`: the user row with the given id, or None once it is deleted
      (the caller is then anonymous). */
  function LoadUser(users: map<nat, User>, userId: nat): (u: Option<User>)
    ensures u.Some? <==> userId in users
    ensures u.Some? ==> u.value == users[userId]
  {
    if userId in users then Some(users[userId]) else None
  }

  /** `@login_required`: an anonymous caller is sent to the login view
      (`login_manager.login_view = 'login'`). None means "go on". */
  function LoginRequired(caller: Option<User>): (denied: Option<Outcome>)
    ensures denied.None? <==> caller.Some?
    ensures denied.Some? ==> denied.value == Redirect(LoginView)
  {
    if caller.None? then Some(Redirect(LoginView)) else None
  }

  /** `@admin_required`: aborts with 403 unless the caller is authenticated and
      an admin. None means "run the wrapped handler". */
  function AdminRequired(caller: Option<User>): (denied: Option<Outcome>)
    ensures denied.None? <==> caller.Some? && caller.value.isAdmin
    ensures denied.Some? ==> denied.value == Forbidden
  {
    if caller.None? || !caller.value.isAdmin then Some(Forbidden) else None
  }

  /** The admin routes stack `@login_required` outside `@admin_required`:
      anonymous callers are redirected to log in, non-admins are refused. */
  function AdminRoute(caller: Option<User>): (denied: Option<Outcome>)
    ensures denied.None? <==> caller.Some? && caller.value.isAdmin
    ensures caller.None? ==> denied == Some(Redirect(LoginView))
    ensures caller.Some? && !caller.value.isAdmin ==> denied == Some(Forbidden)
  {
    var login := LoginRequired(caller);
    if login.Some? then login else AdminRequired(caller)
  }

  /** The ids of the users with the given username. */
  function Named(users: map<nat, User>, name: string): (ids: set<nat>)
    ensures forall id :: id in ids <==> id in users && users[id].username == name
  {
    set id | id in users && users[id].username == name
  }

  /** `User.query.filter_by(username=name).first()`: the first matching row in
      id order, or None when no user has that username. */
  function FindUser(users: map<nat, User>, name: string): (found: Option<nat>)
    ensures found.Some? ==> found.value in users && users[found.value].username == name
    ensures found.Some? ==> forall id :: id in users && users[id].username == name ==> found.value <= id
    ensures found.None? <==> forall id :: id in users ==> users[id].username != name
  {
    var ids := Named(users, name);
    if ids == {} then None else Some(LeastKey(ids))
  }
}
