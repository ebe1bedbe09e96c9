/** The user controller: the rider and driver lists, created lazily; the
    user table and the logged-in user; authentication; and the setters for a
    user's fields. The controller's static fields are one state record,
    passed in and returned. */
module UserController {
  import opened Entities

  /** `riderList`, `driverList`, `users` and `loggedInUser`; `None` where
      the source holds `null`. The user table maps user names to users. */
  datatype State = State(
    riderList: Option<seq<User>>,
    driverList: Option<seq<User>>,
    users: Option<map<string, User>>,
    loggedInUser: Option<User>)

  /** The constructor: each list that does not exist yet is created empty;
      an existing list is never replaced. */
  function NewUserController(s: State): (r: State)
    ensures r.riderList.Some? && r.driverList.Some?
    ensures s.riderList.Some? ==> r.riderList == s.riderList
    ensures s.driverList.Some? ==> r.driverList == s.driverList
    ensures s.riderList.None? ==> r.riderList == Some([])
    ensures s.driverList.None? ==> r.driverList == Some([])
    ensures r.users == s.users && r.loggedInUser == s.loggedInUser
  {
    s.(riderList := if s.riderList.None? then Some([]) else s.riderList,
       driverList := if s.driverList.None? then Some([]) else s.driverList)
  }

  /** The state after a list getter, and the list it returned. */
  datatype Got = Got(state: State, list: seq<User>)

  /** `getRiderList()`: creates the rider list when absent, then returns it. */
  function GetRiderList(s: State): (r: Got)
    ensures r.state.riderList == Some(r.list)
    ensures s.riderList.Some? ==> r.state == s
    ensures s.riderList.None? ==> r.list == [] && r.state == s.(riderList := Some([]))
  {
    var list := if s.riderList.None? then [] else s.riderList.value;
    Got(s.(riderList := Some(list)), list)
  }

  /** `getDriverList()`: creates the driver list when absent, then returns it. */
  function GetDriverList(s: State): (r: Got)
    ensures r.state.driverList == Some(r.list)
    ensures s.driverList.Some? ==> r.state == s
    ensures s.driverList.None? ==> r.list == [] && r.state == s.(driverList := Some([]))
  {
    var list := if s.driverList.None? then [] else s.driverList.value;
    Got(s.(driverList := Some(list)), list)
  }

  /** Asking again hands back the same list and changes nothing. */
  lemma GettersAreStable(s: State)
    ensures var first := GetRiderList(s);
            GetRiderList(first.state) == first
    ensures var first := GetDriverList(s);
            GetDriverList(first.state) == first
  {
  }

  /** `reset()`: both lists are replaced by empty ones. */
  function Reset(s: State): (r: State)
    ensures r.riderList == Some([]) && r.driverList == Some([])
    ensures r.users == s.users && r.loggedInUser == s.loggedInUser
  {
    s.(riderList := Some([]), driverList := Some([]))
  }

  /** The state after `authenticate`, and its answer. */
  datatype Login = Login(state: State, ok: bool)

  /** `authenticate(username, password)`: an absent table or an unknown user
      name fails; a known user name succeeds exactly when the password
      matches the stored one, and only then is that user logged in. */
  function Authenticate(s: State, username: string, password: string): (r: Login)
    ensures r.ok <==> s.users.Some? && username in s.users.value && s.users.value[username].password == password
    ensures r.ok ==> r.state == s.(loggedInUser := Some(s.users.value[username]))
    ensures !r.ok ==> r.state == s
  {
    if s.users.None? || username !in s.users.value then
      Login(s, false)
    else
      var realPassword := s.users.value[username].password;
      if password == realPassword then
        Login(s.(loggedInUser := Some(s.users.value[username])), true)
      else
        Login(s, false)
  }

  /** No modelled operation fills the user table: the constructor, the list
      getters and `reset` keep an absent table absent, and without a table
      every authentication fails and changes nothing. */
  lemma AuthenticateWithoutTable(s: State, username: string, password: string)
    requires s.users.None?
    ensures NewUserController(s).users.None?
    ensures GetRiderList(s).state.users.None? && GetDriverList(s).state.users.None?
    ensures Reset(s).users.None?
    ensures Authenticate(s, username, password) == Login(s, false)
  {
  }

  /** The authentication test: with the table holding one user, that user's
      own credentials log in as that user, and a user name the table does not
      hold is refused, leaving the logged-in user as it was. */
  lemma AuthenticationTest(user: User, otherName: string, otherPassword: string, loggedIn: Option<User>)
    requires otherName != user.username
    ensures var s := State(Some([user]), Some([]), Some(map[user.username := user]), loggedIn);
            var good := Authenticate(s, user.username, user.password);
            var bad := Authenticate(good.state, otherName, otherPassword);
            && good.ok && good.state.loggedInUser == Some(user)
            && !bad.ok && bad.state.loggedInUser == Some(user)
  {
  }

  /** `setEmail`, `setPhone`, `setUsername`: each changes the named field only. */
  function SetEmail(user: User, email: string): (r: User)
    ensures r.email == email
    ensures r.(email := user.email) == user
  {
    user.(email := email)
  }

  function SetPhone(user: User, phone: string): (r: User)
    ensures r.phone == phone
    ensures r.(phone := user.phone) == user
  {
    user.(phone := phone)
  }

  function SetUsername(user: User, username: string): (r: User)
    ensures r.username == username
    ensures r.(username := user.username) == user
  {
    user.(username := username)
  }

  /** Setting a field back to its old value restores the user: a setter
      loses nothing but the field it replaces. */
  lemma SettersRestore(user: User, email: string, phone: string, username: string)
    ensures SetEmail(SetEmail(user, email), user.email) == user
    ensures SetPhone(SetPhone(user, phone), user.phone) == user
    ensures SetUsername(SetUsername(user, username), user.username) == user
  {
  }
}
