/** The Students operations of the record store that the schema supports:
    delete_student, and the validation and statement assembly of update_student. */
module Students {
  import opened Values
  import opened Schema
  import SqlText

  const Deleted: string := "Student deleted successfully!"
  const NotFound: string := "Student not found or could not be deleted"
  const NoSuchParent: string := "Invalid parent_id: no such parent exists"
  const NoSuchTeacher: string := "Invalid teacher_id: no such teacher exists"
  const NoFields: string := "No fields to update"

  // ------------------------------------------------------------- delete_student

  /** delete_student: remove the row, or report not-found when no row was affected. */
  function DeleteStudent(s: Store, studentId: int): (r: Step)
    ensures r.reply.Error? <==> studentId !in s.students
    ensures r.reply.Error? ==> r == Step(s, Error(Said(NotFound)))
    ensures r.reply.Message? ==>
      && r.reply.text == Deleted
      && r.store.students.Keys == s.students.Keys - {studentId}
      && (forall k :: k in r.store.students ==> r.store.students[k] == s.students[k])
      && r.store.(students := s.students) == s
  {
    if studentId !in s.students then Step(s, Error(Said(NotFound)))
    else Step(s.(students := s.students - {studentId}), Message(Deleted))
  }

  /** The first delete of an existing id succeeds and the second reports not-found. */
  lemma DeleteStudentTwice(s: Store, studentId: int)
    requires studentId in s.students
    ensures DeleteStudent(s, studentId).reply == Message(Deleted)
    ensures var once := DeleteStudent(s, studentId).store;
      DeleteStudent(once, studentId) == Step(once, Error(Said(NotFound)))
  {
  }

  lemma DeleteStudentKeepsInv(s: Store, studentId: int)
    requires Inv(s)
    ensures Inv(DeleteStudent(s, studentId).store)
  {
  }

  // ------------------------------------------------------------- update_student

  /** One `column = ?` of update_student's SET list together with its value. */
  datatype Assignment =
    | SetName(name: string)
    | SetEmail(email: string)
    | SetClassroom(classroom: string)
    | SetParent(parentId: int)
    | SetTeacher(teacherId: int)

  function Column(a: Assignment): string {
    match a
    case SetName(_) => "name"
    case SetEmail(_) => "email"
    case SetClassroom(_) => "classroom"
    case SetParent(_) => "parent_id"
    case SetTeacher(_) => "teacher_id"
  }

  /** Position of the column in the order the source tests the arguments. */
  function Rank(a: Assignment): nat {
    match a
    case SetName(_) => 0
    case SetEmail(_) => 1
    case SetClassroom(_) => 2
    case SetParent(_) => 3
    case SetTeacher(_) => 4
  }

  function Value(a: Assignment): Param {
    match a
    case SetName(v) => Text(v)
    case SetEmail(v) => Text(v)
    case SetClassroom(v) => Text(v)
    case SetParent(id) => Int(id)
    case SetTeacher(id) => Int(id)
  }

  /** A text assignment carrying the value of its own argument, which is truthy. */
  predicate SuppliedText(a: Assignment, name: Option<string>, email: Option<string>, classroom: Option<string>) {
    match a
    case SetName(v) => Truthy(name) && v == name.value
    case SetEmail(v) => Truthy(email) && v == email.value
    case SetClassroom(v) => Truthy(classroom) && v == classroom.value
    case _ => false
  }

  /** A reference assignment carrying the id of its own argument, which is not None. */
  predicate SuppliedReference(a: Assignment, teacherId: Option<int>, parentId: Option<int>) {
    match a
    case SetParent(id) => parentId == Some(id)
    case SetTeacher(id) => teacherId == Some(id)
    case _ => false
  }

  /** The assignment carries the value of its own argument, and that argument is
      truthy (text columns) or not None (id columns). */
  predicate Supplied(a: Assignment, teacherId: Option<int>, parentId: Option<int>,
                     name: Option<string>, email: Option<string>, classroom: Option<string>)
  {
    SuppliedText(a, name, email, classroom) || SuppliedReference(a, teacherId, parentId)
  }

  /** Columns appear in the order the source tests the arguments, each at most once. */
  predicate Ordered(a: seq<Assignment>) {
    forall i, j :: 0 <= i < j < |a| ==> Rank(a[i]) < Rank(a[j])
  }

  /** No argument asks for a column to be written. */
  predicate NothingSupplied(teacherId: Option<int>, parentId: Option<int>,
                            name: Option<string>, email: Option<string>, classroom: Option<string>)
  {
    !Truthy(name) && !Truthy(email) && !Truthy(classroom) && parentId.None? && teacherId.None?
  }

  /** The text columns of the SET list: the truthy name, email and classroom, in that order. */
  function TextAssignments(name: Option<string>, email: Option<string>, classroom: Option<string>): (a: seq<Assignment>)
    ensures forall i :: 0 <= i < |a| ==> SuppliedText(a[i], name, email, classroom) && Rank(a[i]) < 3
    ensures Ordered(a)
    ensures Truthy(name) ==> SetName(name.value) in a
    ensures Truthy(email) ==> SetEmail(email.value) in a
    ensures Truthy(classroom) ==> SetClassroom(classroom.value) in a
    ensures a == [] <==> !Truthy(name) && !Truthy(email) && !Truthy(classroom)
  {
    var n := if Truthy(name) then [SetName(name.value)] else [];
    var e := if Truthy(email) then [SetEmail(email.value)] else [];
    var c := if Truthy(classroom) then [SetClassroom(classroom.value)] else [];
    n + e + c
  }

  /** The reference columns of the SET list: parent_id, then teacher_id, each when not None. */
  function ReferenceAssignments(teacherId: Option<int>, parentId: Option<int>): (a: seq<Assignment>)
    ensures forall i :: 0 <= i < |a| ==> SuppliedReference(a[i], teacherId, parentId) && 3 <= Rank(a[i])
    ensures Ordered(a)
    ensures parentId.Some? ==> SetParent(parentId.value) in a
    ensures teacherId.Some? ==> SetTeacher(teacherId.value) in a
    ensures a == [] <==> parentId.None? && teacherId.None?
  {
    var p := if parentId.Some? then [SetParent(parentId.value)] else [];
    var t := if teacherId.Some? then [SetTeacher(teacherId.value)] else [];
    p + t
  }

  /** update_student's SET list: the truthy name, email and classroom, then
      parent_id and teacher_id when they are not None, in that order. */
  function Assignments(teacherId: Option<int>, parentId: Option<int>,
                       name: Option<string>, email: Option<string>, classroom: Option<string>): (a: seq<Assignment>)
    ensures forall i :: 0 <= i < |a| ==> Supplied(a[i], teacherId, parentId, name, email, classroom)
    ensures Ordered(a)
    ensures Truthy(name) ==> SetName(name.value) in a
    ensures Truthy(email) ==> SetEmail(email.value) in a
    ensures Truthy(classroom) ==> SetClassroom(classroom.value) in a
    ensures parentId.Some? ==> SetParent(parentId.value) in a
    ensures teacherId.Some? ==> SetTeacher(teacherId.value) in a
    ensures a == [] <==> NothingSupplied(teacherId, parentId, name, email, classroom)
  {
    var x := TextAssignments(name, email, classroom);
    var y := ReferenceAssignments(teacherId, parentId);
    TextThenReferences(x, y, teacherId, parentId, name, email, classroom);
    x + y
  }

  /** Text assignments followed by reference assignments keep both orders and
      every value. */
  lemma TextThenReferences(x: seq<Assignment>, y: seq<Assignment>, teacherId: Option<int>, parentId: Option<int>,
                           name: Option<string>, email: Option<string>, classroom: Option<string>)
    requires forall i :: 0 <= i < |x| ==> SuppliedText(x[i], name, email, classroom) && Rank(x[i]) < 3
    requires forall i :: 0 <= i < |y| ==> SuppliedReference(y[i], teacherId, parentId) && 3 <= Rank(y[i])
    requires Ordered(x) && Ordered(y)
    ensures forall i :: 0 <= i < |x + y| ==> Supplied((x + y)[i], teacherId, parentId, name, email, classroom)
    ensures Ordered(x + y)
  {
    var a := x + y;
    forall i | 0 <= i < |a|
      ensures Supplied(a[i], teacherId, parentId, name, email, classroom)
    {
      if i < |x| {
        assert a[i] == x[i];
      } else {
        assert a[i] == y[i - |x|];
      }
    }
    forall i, j | 0 <= i < j < |a|
      ensures Rank(a[i]) < Rank(a[j])
    {
      if j < |x| {
        assert a[i] == x[i] && a[j] == x[j];
      } else if i >= |x| {
        assert a[i] == y[i - |x|] && a[j] == y[j - |x|];
      } else {
        assert a[i] == x[i] && a[j] == y[j - |x|];
      }
    }
  }

  function Columns(a: seq<Assignment>): seq<string>
  {
    seq(|a|, i requires 0 <= i < |a| => Column(a[i]))
  }

  function SetValues(a: seq<Assignment>): seq<Param>
  {
    seq(|a|, i requires 0 <= i < |a| => Value(a[i]))
  }

  /** The statement text update_student would send. */
  function UpdateStudentSql(a: seq<Assignment>): string {
    SqlText.UpdateStatement("Students", Columns(a))
  }

  lemma UpdateStudentPlaceholders(a: seq<Assignment>)
    ensures SqlText.Occurrences('?', UpdateStudentSql(a)) == |a| + 1
  {
    var cs := Columns(a);
    forall i | 0 <= i < |cs|
      ensures '?' !in cs[i]
    {
      match a[i]
      case SetName(_) =>
      case SetEmail(_) =>
      case SetClassroom(_) =>
      case SetParent(_) =>
      case SetTeacher(_) =>
    }
    SqlText.PlaceholderCount("Students", cs);
  }

  /** The parameter list as the source builds it: the student id first, then
      the SET values, then the student id again for WHERE. */
  function UpdateStudentParamsAsWritten(studentId: int, a: seq<Assignment>): seq<Param>
  {
    [Int(studentId)] + SetValues(a) + [Int(studentId)]
  }

  /** Where each entry of the as-written list sits. */
  lemma AsWrittenLayout(studentId: int, a: seq<Assignment>)
    ensures var p := UpdateStudentParamsAsWritten(studentId, a);
      && |p| == |a| + 2
      && p[0] == Int(studentId) && p[|a| + 1] == Int(studentId)
      && forall i :: 0 <= i < |a| ==> p[i + 1] == Value(a[i])
  {
  }

  /** As written, every statement that passes update_student's validation has
      one parameter more than it has placeholders, so the engine refuses to bind it. */
  lemma UpdateStudentParamsMismatch(studentId: int, a: seq<Assignment>)
    ensures SqlText.Occurrences('?', UpdateStudentSql(a)) + 1 == |UpdateStudentParamsAsWritten(studentId, a)|
  {
    UpdateStudentPlaceholders(a);
  }

  /** A concrete instance: renaming a student binds three parameters to a
      statement with two placeholders. */
  lemma UpdateStudentRenameMismatch(studentId: int, newName: string)
    ensures var a := [SetName(newName)];
      && Columns(a) == ["name"]
      && SqlText.Occurrences('?', UpdateStudentSql(a)) == 2
      && UpdateStudentParamsAsWritten(studentId, a) == [Int(studentId), Text(newName), Int(studentId)]
  {
    var a := [SetName(newName)];
    UpdateStudentPlaceholders(a);
    assert SetValues(a) == [Text(newName)];
    assert Columns(a) == ["name"];
  }

  /** The parameter list the statement needs: the SET values in order, then the id. */
  function UpdateStudentParams(studentId: int, a: seq<Assignment>): seq<Param>
  {
    SetValues(a) + [Int(studentId)]
  }

  /** With the corrected list every placeholder gets exactly one parameter. */
  lemma UpdateStudentBindings(studentId: int, a: seq<Assignment>)
    ensures SqlText.Occurrences('?', UpdateStudentSql(a)) == |UpdateStudentParams(studentId, a)|
  {
    UpdateStudentPlaceholders(a);
  }

  /** The UPDATE update_student sends once validation passes. */
  datatype Statement = Statement(assignments: seq<Assignment>, sql: string, params: seq<Param>)

  /** Either the error reply update_student returns before writing, or its statement. */
  datatype Outcome = Rejected(message: string) | Accepted(statement: Statement)

  /** update_student up to its write, as written: the parent reference is
      checked first, then the teacher reference, then the SET list must not be
      empty. The student id itself is not looked up, and the store is only
      read. The statement it then sends binds the student id both before and
      after the SET values, one parameter more than it has placeholders, so
      the engine refuses it. */
  function UpdateStudent(s: Store, studentId: int, teacherId: Option<int>, parentId: Option<int>,
                         name: Option<string>, email: Option<string>, classroom: Option<string>): (r: Outcome)
    ensures parentId.Some? && !HasRole(s.users, parentId.value, "parent") ==> r == Rejected(NoSuchParent)
    ensures (parentId.None? || HasRole(s.users, parentId.value, "parent"))
            && teacherId.Some? && !HasRole(s.users, teacherId.value, "teacher")
            ==> r == Rejected(NoSuchTeacher)
    ensures r == Rejected(NoFields) <==>
      && parentId.None? && teacherId.None?
      && !Truthy(name) && !Truthy(email) && !Truthy(classroom)
    ensures r.Accepted? <==>
      && (parentId.None? || HasRole(s.users, parentId.value, "parent"))
      && (teacherId.None? || HasRole(s.users, teacherId.value, "teacher"))
      && (parentId.Some? || teacherId.Some? || Truthy(name) || Truthy(email) || Truthy(classroom))
    ensures r.Accepted? ==>
      var st := r.statement;
      && st.assignments == Assignments(teacherId, parentId, name, email, classroom)
      && |st.params| == |st.assignments| + 2
      && st.params[0] == Int(studentId) && st.params[|st.assignments| + 1] == Int(studentId)
      && (forall i :: 0 <= i < |st.assignments| ==> st.params[i + 1] == Value(st.assignments[i]))
      && SqlText.Occurrences('?', st.sql) + 1 == |st.params|
  {
    if parentId.Some? && !HasRole(s.users, parentId.value, "parent") then
      Rejected(NoSuchParent)
    else if teacherId.Some? && !HasRole(s.users, teacherId.value, "teacher") then
      Rejected(NoSuchTeacher)
    else
      var a := Assignments(teacherId, parentId, name, email, classroom);
      if a == [] then Rejected(NoFields)
      else
        UpdateStudentParamsMismatch(studentId, a);
        AsWrittenLayout(studentId, a);
        Accepted(Statement(a, UpdateStudentSql(a), UpdateStudentParamsAsWritten(studentId, a)))
  }

  /** update_student with the parameter list its WHERE clause needs: the same
      replies and the same SET list, but the student id bound only once, at
      the end, so every placeholder gets exactly one parameter. */
  function UpdateStudentCorrected(s: Store, studentId: int, teacherId: Option<int>, parentId: Option<int>,
                                  name: Option<string>, email: Option<string>, classroom: Option<string>): (r: Outcome)
    ensures var w := UpdateStudent(s, studentId, teacherId, parentId, name, email, classroom);
      && (r.Rejected? <==> w.Rejected?)
      && (r.Rejected? ==> r == w)
      && (r.Accepted? ==>
            && r.statement.assignments == w.statement.assignments
            && r.statement.sql == w.statement.sql)
    ensures r.Accepted? ==>
      var st := r.statement;
      && |st.params| == |st.assignments| + 1
      && (forall i :: 0 <= i < |st.assignments| ==> st.params[i] == Value(st.assignments[i]))
      && st.params[|st.assignments|] == Int(studentId)
      && SqlText.Occurrences('?', st.sql) == |st.params|
  {
    match UpdateStudent(s, studentId, teacherId, parentId, name, email, classroom)
    case Rejected(message) => Rejected(message)
    case Accepted(st) =>
      UpdateStudentBindings(studentId, st.assignments);
      Accepted(st.(params := UpdateStudentParams(studentId, st.assignments)))
  }
}
