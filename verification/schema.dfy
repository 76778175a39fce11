/** The tables of the record store, their constraints, and the replies of its operations. */
module Schema {
  import opened Values

  /** Values the CHECK constraints admit. */
  const Roles: set<string> := {"admin", "teacher", "parent"}
  const HomeworkStatuses: set<string> := {"completed", "pending"}
  const TaskStatuses: set<string> := {"completed", "incomplete"}

  /** A Users row; `id` is the key of the map that holds it. Every column is
      NOT NULL, so each is a plain string. */
  datatype User = User(name: string, email: string, password: string, role: string)

  /** A Students row. `parentId` and `teacherId` are NOT NULL foreign keys into
      Users that the engine never enforces. */
  datatype Student = Student(name: string, email: string, parentId: int, teacherId: int)

  /** The NOT NULL columns of a Homework row (the nullable chapter/verse range and due date are not kept). */
  datatype Homework = Homework(studentId: int, description: string, status: string)

  /** The NOT NULL columns of a Task row (the nullable dates are not kept). */
  datatype Task = Task(studentId: int, description: string, status: string)

  /** The whole database: one map from id to row per table, and for Users and
      Students the largest id AUTOINCREMENT has ever issued. */
  datatype Store = Store(
    users: map<int, User>,
    userSeq: nat,
    students: map<int, Student>,
    studentSeq: nat,
    homework: map<int, Homework>,
    tasks: map<int, Task>)

  /** A freshly created database. */
  const Empty: Store := Store(map[], 0, map[], 0, map[], map[])

  /** Some Users row already carries `email`. */
  predicate EmailInUse(users: map<int, User>, email: string) {
    exists id :: id in users && users[id].email == email
  }

  /** `SELECT id FROM Users WHERE id = ? AND role = ?` finds a row. */
  predicate HasRole(users: map<int, User>, id: int, role: string) {
    id in users && users[id].role == role
  }

  /** The UNIQUE constraint on Users.email. */
  predicate UniqueEmails(users: map<int, User>) {
    forall a, b :: a in users && b in users && users[a].email == users[b].email ==> a == b
  }

  /** Every key lies in 1..last: ids start at 1 and never exceed the largest issued, `last`. */
  predicate IssuedIds<T>(rows: map<int, T>, last: nat) {
    forall id :: id in rows ==> 0 < id <= last
  }

  /** The schema's constraints, which hold in every state the engine can reach. */
  predicate Inv(s: Store) {
    && UniqueEmails(s.users)
    && (forall id :: id in s.users ==> s.users[id].role in Roles)
    && IssuedIds(s.users, s.userSeq)
    && IssuedIds(s.students, s.studentSeq)
    && (forall id :: id in s.homework ==> s.homework[id].status in HomeworkStatuses)
    && (forall id :: id in s.tasks ==> s.tasks[id].status in TaskStatuses)
  }

  lemma EmptyInv()
    ensures Inv(Empty)
  {
  }

  /** The text of an `{"error": …}` reply; the message of an IntegrityError is left opaque. */
  datatype Detail = Said(text: string) | IntegrityText

  /** An exception that escapes an operation instead of becoming a reply. */
  datatype DbException = IntegrityError

  /** `{"message": …}`, `{"error": …}`, or an uncaught exception. */
  datatype Reply = Message(text: string) | Error(detail: Detail) | Raised(exception: DbException)

  /** The database after an operation, and what the operation returned. */
  datatype Step = Step(store: Store, reply: Reply)
}
