/** The Users operations of the record store: create_user, get_all_users,
    update_user and delete_user. */
module Users {
  import opened Values
  import opened Schema
  import opened IdSets
  import SqlText

  const Created: string := "User created successfully!"
  const Updated: string := "User updated successfully!"
  const Deleted: string := "User deleted successfully!"
  const NotFound: string := "User not found or could not be deleted"

  // ---------------------------------------------------------------- create_user

  /** The id AUTOINCREMENT gives the next row: one more than both the largest id
      ever issued and the largest id now present. */
  function NextUserId(s: Store): (id: int)
    ensures id > s.userSeq
    ensures forall k :: k in s.users ==> k < id
  {
    LargestAtLeast(s.users.Keys, s.userSeq) + 1
  }

  /** True when `INSERT INTO Users (name, email, password, role)` breaks a NOT NULL,
      CHECK or UNIQUE constraint, so that the engine raises IntegrityError. */
  predicate InsertRejected(users: map<int, User>, name: Option<string>, email: Option<string>,
                           password: Option<string>, role: Option<string>)
  {
    || name.None? || email.None? || password.None? || role.None?
    || role.value !in Roles
    || EmailInUse(users, email.value)
  }

  /** create_user: insert one Users row, or turn the IntegrityError into an error reply. */
  function CreateUser(s: Store, name: Option<string>, email: Option<string>,
                      password: Option<string>, role: Option<string>): (r: Step)
    ensures r.reply.Message? <==>
      && name.Some? && email.Some? && password.Some? && role.Some?
      && role.value in Roles
      && forall k :: k in s.users ==> s.users[k].email != email.value
    ensures !r.reply.Message? ==> r == Step(s, Error(IntegrityText))
    ensures r.reply.Message? ==>
      var id := r.store.userSeq;
      && r.reply.text == Created
      && id > s.userSeq
      && (forall k :: k in s.users ==> k < id)
      && r.store.users == s.users[id := User(name.value, email.value, password.value, role.value)]
      && r.store.(users := s.users, userSeq := s.userSeq) == s
  {
    if InsertRejected(s.users, name, email, password, role) then
      Step(s, Error(IntegrityText))
    else
      var id := NextUserId(s);
      var row := User(name.value, email.value, password.value, role.value);
      Step(s.(users := s.users[id := row], userSeq := id), Message(Created))
  }

  // -------------------------------------------------------------- get_all_users

  /** One element of get_all_users' list: every column but the password. */
  datatype UserView = UserView(id: int, name: string, email: string, role: string)

  function View(id: int, u: User): UserView {
    UserView(id, u.name, u.email, u.role)
  }

  /** get_all_users: a full scan of Users in rowid order, each row projected to
      its id, name, email and role. */
  method GetAllUsers(s: Store) returns (r: seq<UserView>)
    ensures |r| == |s.users|
    ensures forall i :: 0 <= i < |r| ==> r[i].id in s.users && r[i] == View(r[i].id, s.users[r[i].id])
    ensures forall id :: id in s.users ==> exists i :: 0 <= i < |r| && r[i].id == id
    ensures forall i, j :: 0 <= i < j < |r| ==> r[i].id < r[j].id
  {
    r := [];
    var rest := s.users.Keys;
    while rest != {}
      invariant Scanned(s, r, rest)
      decreases rest
    {
      var id := Smallest(rest);
      ScanStep(s, r, rest, id);
      r := r + [View(id, s.users[id])];
      rest := rest - {id};
    }
  }

  /** Scan state of get_all_users: `r` lists, in increasing id order, the rows
      whose ids are below every id still in `rest`, and every row is in one of the two. */
  predicate Scanned(s: Store, r: seq<UserView>, rest: set<int>) {
    && rest <= s.users.Keys
    && |r| + |rest| == |s.users|
    && Projected(s, r)
    && Covered(s, r, rest)
    && Increasing(r)
    && (forall i, k :: 0 <= i < |r| && k in rest ==> r[i].id < k)
  }

  /** Every element is the view of the Users row with its id. */
  predicate Projected(s: Store, r: seq<UserView>) {
    forall i :: 0 <= i < |r| ==> r[i].id in s.users && r[i] == View(r[i].id, s.users[r[i].id])
  }

  /** Every row's id is listed in `r` or still waits in `rest`. */
  predicate Covered(s: Store, r: seq<UserView>, rest: set<int>) {
    forall id :: id in s.users ==> id in rest || exists i :: 0 <= i < |r| && r[i].id == id
  }

  predicate Increasing(r: seq<UserView>) {
    forall i, j :: 0 <= i < j < |r| ==> r[i].id < r[j].id
  }

  /** Moving the smallest remaining id from `rest` to the end of `r` keeps the scan state. */
  lemma ScanStep(s: Store, r: seq<UserView>, rest: set<int>, id: int)
    requires Scanned(s, r, rest)
    requires id in rest && forall k :: k in rest ==> id <= k
    ensures Scanned(s, r + [View(id, s.users[id])], rest - {id})
  {
    var r' := r + [View(id, s.users[id])];
    ScanStepCovers(s, r, rest, id);
    assert Increasing(r') by {
      forall i, j | 0 <= i < j < |r'|
        ensures r'[i].id < r'[j].id
      {
        if j < |r| {
          assert r'[i] == r[i] && r'[j] == r[j];
        } else {
          assert r'[i] == r[i];
        }
      }
    }
    assert Projected(s, r') by {
      forall i | 0 <= i < |r'|
        ensures r'[i].id in s.users && r'[i] == View(r'[i].id, s.users[r'[i].id])
      {
        if i < |r| {
          assert r'[i] == r[i];
        }
      }
    }
  }

  lemma ScanStepCovers(s: Store, r: seq<UserView>, rest: set<int>, id: int)
    requires Covered(s, r, rest)
    requires id in rest && id in s.users
    ensures Covered(s, r + [View(id, s.users[id])], rest - {id})
  {
    var r' := r + [View(id, s.users[id])];
    forall k | k in s.users && k !in rest - {id}
      ensures exists i :: 0 <= i < |r'| && r'[i].id == k
    {
      if k == id {
        assert r'[|r'| - 1].id == k;
      } else {
        var i :| 0 <= i < |r| && r[i].id == k;
        assert r'[i].id == k;
      }
    }
  }

  // ---------------------------------------------------------------- update_user

  /** One `column = ?` of update_user's SET list together with the value bound to it. */
  datatype Assignment = SetName(value: string) | SetEmail(value: string) | SetRole(value: string)

  function Column(a: Assignment): string {
    match a
    case SetName(_) => "name"
    case SetEmail(_) => "email"
    case SetRole(_) => "role"
  }

  /** Position of the column in the order the source tests the arguments. */
  function Rank(a: Assignment): nat {
    match a
    case SetName(_) => 0
    case SetEmail(_) => 1
    case SetRole(_) => 2
  }

  /** The assignment carries the value of its own argument, and that argument is truthy. */
  predicate Supplied(a: Assignment, name: Option<string>, email: Option<string>, role: Option<string>) {
    match a
    case SetName(v) => Truthy(name) && v == name.value
    case SetEmail(v) => Truthy(email) && v == email.value
    case SetRole(v) => Truthy(role) && v == role.value
  }

  /** Number of truthy arguments among name, email and role. */
  function SuppliedCount(name: Option<string>, email: Option<string>, role: Option<string>): nat {
    (if Truthy(name) then 1 else 0) + (if Truthy(email) then 1 else 0) + (if Truthy(role) then 1 else 0)
  }

  /** update_user's SET list: each truthy argument among name, email and role,
      in that order, and nothing else. */
  function Assignments(name: Option<string>, email: Option<string>, role: Option<string>): (a: seq<Assignment>)
    ensures |a| == SuppliedCount(name, email, role)
    ensures forall i :: 0 <= i < |a| ==> Supplied(a[i], name, email, role)
    ensures forall i, j :: 0 <= i < j < |a| ==> Rank(a[i]) < Rank(a[j])
    ensures Truthy(name) ==> SetName(name.value) in a
    ensures Truthy(email) ==> SetEmail(email.value) in a
    ensures Truthy(role) ==> SetRole(role.value) in a
  {
    var n := if Truthy(name) then [SetName(name.value)] else [];
    var e := if Truthy(email) then [SetEmail(email.value)] else [];
    var o := if Truthy(role) then [SetRole(role.value)] else [];
    n + e + o
  }

  function Columns(a: seq<Assignment>): seq<string>
  {
    seq(|a|, i requires 0 <= i < |a| => Column(a[i]))
  }

  /** The statement text update_user sends. */
  function UpdateUserSql(a: seq<Assignment>): string {
    SqlText.UpdateStatement("Users", Columns(a))
  }

  /** update_user's `params`: the SET values in order, then the id for WHERE. */
  function UpdateUserParams(userId: int, a: seq<Assignment>): seq<Param>
  {
    seq(|a|, i requires 0 <= i < |a| => Text(a[i].value)) + [Int(userId)]
  }

  /** The statement has exactly as many `?` placeholders as `params` has entries:
      one per supplied field and one for the id. */
  lemma UpdateUserBindings(userId: int, name: Option<string>, email: Option<string>, role: Option<string>)
    ensures var a := Assignments(name, email, role);
      && SqlText.Occurrences('?', UpdateUserSql(a)) == |UpdateUserParams(userId, a)|
      && |UpdateUserParams(userId, a)| == SuppliedCount(name, email, role) + 1
  {
    var a := Assignments(name, email, role);
    var cs := Columns(a);
    forall i | 0 <= i < |cs|
      ensures '?' !in cs[i]
    {
      match a[i]
      case SetName(_) =>
      case SetEmail(_) =>
      case SetRole(_) =>
    }
    SqlText.PlaceholderCount("Users", cs);
  }

  /** Writing one assignment into a row. */
  function Assign(u: User, a: Assignment): User {
    match a
    case SetName(v) => u.(name := v)
    case SetEmail(v) => u.(email := v)
    case SetRole(v) => u.(role := v)
  }

  /** Executing a SET list on a row, left to right. */
  function AssignAll(u: User, a: seq<Assignment>): User
    decreases a
  {
    if a == [] then u else AssignAll(Assign(u, a[0]), a[1..])
  }

  /** The row update_user writes keeps every column whose argument is falsy
      and takes the argument's value for every column whose argument is truthy. */
  lemma UpdatedRow(u: User, name: Option<string>, email: Option<string>, role: Option<string>)
    ensures var v := AssignAll(u, Assignments(name, email, role));
      && v.name == (if Truthy(name) then name.value else u.name)
      && v.email == (if Truthy(email) then email.value else u.email)
      && v.role == (if Truthy(role) then role.value else u.role)
      && v.password == u.password
  {
    var a := Assignments(name, email, role);
    var n := if Truthy(name) then [SetName(name.value)] else [];
    var e := if Truthy(email) then [SetEmail(email.value)] else [];
    var o := if Truthy(role) then [SetRole(role.value)] else [];
    assert a == n + e + o;
    AssignAllAppend(u, n, e + o);
    assert n + (e + o) == a;
    AssignAllAppend(AssignAll(u, n), e, o);
  }

  lemma {:induction false} AssignAllAppend(u: User, a: seq<Assignment>, b: seq<Assignment>)
    ensures AssignAll(u, a + b) == AssignAll(AssignAll(u, a), b)
    decreases a
  {
    if a == [] {
      assert a + b == b;
    } else {
      assert (a + b)[1..] == a[1..] + b;
      AssignAllAppend(Assign(u, a[0]), a[1..], b);
    }
  }

  /** Some row other than `id` already carries `email`. */
  predicate EmailTakenByOther(users: map<int, User>, id: int, email: string) {
    exists k :: k in users && k != id && users[k].email == email
  }

  /** True when the UPDATE breaks a constraint on a column it writes: the role
      CHECK or the email UNIQUE index. The engine only tests these on a row the
      WHERE clause selects. */
  predicate UpdateRejected(users: map<int, User>, userId: int, a: seq<Assignment>) {
    exists i :: 0 <= i < |a| &&
      match a[i]
      case SetName(_) => false
      case SetEmail(v) => EmailTakenByOther(users, userId, v)
      case SetRole(v) => v !in Roles
  }

  /** update_user. The IntegrityError of a rejected UPDATE is not caught and
      escapes as an exception; an id with no row updates nothing and still
      reports success. An empty SET list is not valid SQL, so at least one
      argument must be truthy. */
  function UpdateUser(s: Store, userId: int, name: Option<string>, email: Option<string>, role: Option<string>): (r: Step)
    requires Truthy(name) || Truthy(email) || Truthy(role)
    ensures r.reply == Message(Updated) || r.reply == Raised(IntegrityError)
    ensures userId !in s.users ==> r == Step(s, Message(Updated))
    ensures r.reply.Raised? <==>
      && userId in s.users
      && ((Truthy(role) && role.value !in Roles)
          || (Truthy(email) && exists k :: k in s.users && k != userId && s.users[k].email == email.value))
    ensures r.reply.Raised? ==> r.store == s
    ensures r.store.(users := s.users) == s
    ensures r.reply.Message? && userId in s.users ==>
      var u := s.users[userId];
      r.store.users == s.users[userId := User(
        if Truthy(name) then name.value else u.name,
        if Truthy(email) then email.value else u.email,
        u.password,
        if Truthy(role) then role.value else u.role)]
  {
    var a := Assignments(name, email, role);
    if userId !in s.users then
      Step(s, Message(Updated))
    else if UpdateRejected(s.users, userId, a) then
      Step(s, Raised(IntegrityError))
    else
      UpdatedRow(s.users[userId], name, email, role);
      Step(s.(users := s.users[userId := AssignAll(s.users[userId], a)]), Message(Updated))
  }

  /** Repeating an update with the same arguments changes nothing further and
      gives the same reply. */
  lemma UpdateUserIdempotent(s: Store, userId: int, name: Option<string>, email: Option<string>, role: Option<string>)
    requires Truthy(name) || Truthy(email) || Truthy(role)
    ensures var once := UpdateUser(s, userId, name, email, role);
      UpdateUser(once.store, userId, name, email, role) == once
  {
    var once := UpdateUser(s, userId, name, email, role);
    if once.reply.Message? && userId in s.users {
      var twice := UpdateUser(once.store, userId, name, email, role);
      if Truthy(email) {
        assert forall k :: k in once.store.users && k != userId ==> once.store.users[k] == s.users[k];
      }
      assert !twice.reply.Raised?;
    }
  }

  // ---------------------------------------------------------------- delete_user

  /** delete_user: remove the row, or report not-found when no row was affected.
      Students rows that reference the user are left as they are. */
  function DeleteUser(s: Store, userId: int): (r: Step)
    ensures r.reply.Error? <==> userId !in s.users
    ensures r.reply.Error? ==> r == Step(s, Error(Said(NotFound)))
    ensures r.reply.Message? ==>
      && r.reply.text == Deleted
      && r.store.users.Keys == s.users.Keys - {userId}
      && (forall k :: k in r.store.users ==> r.store.users[k] == s.users[k])
      && r.store.(users := s.users) == s
  {
    if userId !in s.users then Step(s, Error(Said(NotFound)))
    else Step(s.(users := s.users - {userId}), Message(Deleted))
  }

  /** The first delete of an existing id succeeds and the second reports not-found. */
  lemma DeleteUserTwice(s: Store, userId: int)
    requires userId in s.users
    ensures DeleteUser(s, userId).reply == Message(Deleted)
    ensures var once := DeleteUser(s, userId).store;
      DeleteUser(once, userId) == Step(once, Error(Said(NotFound)))
  {
  }

  /** Deleting the user just created restores the Users table; only the
      AUTOINCREMENT counter remembers the id. */
  lemma CreateThenDeleteUser(s: Store, name: Option<string>, email: Option<string>,
                             password: Option<string>, role: Option<string>)
    requires CreateUser(s, name, email, password, role).reply.Message?
    ensures var c := CreateUser(s, name, email, password, role).store;
      var d := DeleteUser(c, c.userSeq);
      && d.reply == Message(Deleted)
      && d.store == s.(userSeq := c.userSeq)
  {
    var c := CreateUser(s, name, email, password, role).store;
    assert c.userSeq !in s.users;
    assert c.users - {c.userSeq} == s.users;
  }

  /** An id freed by delete_user is never handed out again. */
  lemma DeletedIdNotReissued(s: Store, userId: int, name: Option<string>, email: Option<string>,
                             password: Option<string>, role: Option<string>)
    requires Inv(s)
    requires userId in s.users
    ensures var d := DeleteUser(s, userId).store;
      var c := CreateUser(d, name, email, password, role);
      c.reply.Message? ==> c.store.userSeq > userId && userId !in c.store.users
  {
  }

  /** The foreign keys are not enforced: deleting a user keeps every Students
      row, including those that now reference a missing user. */
  lemma DeleteUserLeavesDanglingStudents(s: Store, userId: int, studentId: int)
    requires userId in s.users
    requires studentId in s.students
    requires s.students[studentId].parentId == userId || s.students[studentId].teacherId == userId
    ensures var d := DeleteUser(s, userId).store;
      && d.students == s.students
      && userId !in d.users
  {
  }

  // ----------------------------------------------------------------- invariant

  lemma CreateUserKeepsInv(s: Store, name: Option<string>, email: Option<string>,
                           password: Option<string>, role: Option<string>)
    requires Inv(s)
    ensures Inv(CreateUser(s, name, email, password, role).store)
  {
  }

  lemma UpdateUserKeepsInv(s: Store, userId: int, name: Option<string>, email: Option<string>, role: Option<string>)
    requires Inv(s)
    requires Truthy(name) || Truthy(email) || Truthy(role)
    ensures Inv(UpdateUser(s, userId, name, email, role).store)
  {
  }

  lemma DeleteUserKeepsInv(s: Store, userId: int)
    requires Inv(s)
    ensures Inv(DeleteUser(s, userId).store)
  {
  }
}
