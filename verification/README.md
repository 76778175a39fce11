# Record store of the Quran homework tracker, in Dafny

This project models the data-access layer of a school homework tracker. The layer keeps Users (admins, teachers, parents) and Students in an SQLite database. It offers create, list, update and delete operations on Users, and update and delete operations on Students.

The database is an immutable `Schema.Store`. It holds one map from id to row per table (Users, Students, Homework, Task). For Users and Students it also holds the largest id that AUTOINCREMENT has ever issued. Each operation is a pure function from a store and the Python arguments to a `Schema.Step`. A step carries the new store and the reply. The reply is `{"message": …}`, `{"error": …}`, or an exception that escapes the function. Python `None` is `Values.Option.None`, and Python truthiness of a string argument is `Values.Truthy`. The SQL engine's behaviour is written out as map operations:

- a NOT NULL, CHECK or UNIQUE violation raises IntegrityError and writes nothing;
- an UPDATE or DELETE whose WHERE matches no row does nothing;
- AUTOINCREMENT issues one more than the larger of the largest id ever issued and the largest id present.

The NOT NULL columns of the schema are plain strings and integers in the row datatypes, so no stored row can hold a NULL. A `None` passed to `create_user` is the NOT NULL violation the engine rejects.

The other table constraints of `dataBase.py` form `Schema.Inv`:

- e-mails are unique;
- every role is admin, teacher or parent;
- every id lies between 1 and the largest id issued;
- Homework and Task statuses are in their CHECK sets.

Every writing operation keeps `Schema.Inv`. `Machine` runs sequences of writes and proves that the invariant holds in every reachable state. It also proves that AUTOINCREMENT ids only ever increase.

The modules follow the source: `Values` (Python values), `IdSets` (the smallest and largest id of a table), `SqlText` (the UPDATE text assembled at run time), `Schema` (`dataBase.py`), `Users` and `Students` (the two halves of `crud.py`), and `Machine` (the operations run in sequence).

The model follows the code as written:

- `update_user` on a missing id reports success; it does not report not-found;
- `update_student` never checks that the student exists;
- the Students table has no `classroom` column, although `update_student` writes one;
- `create_student` contains no reference checks (and always raises; see Left out).

## Model

| member | source | states |
|---|---|---|
| Users.NextUserId | dataBase.py:11 | the id AUTOINCREMENT issues is above the largest id ever issued and above every id present |
| Users.CreateUser | crud.py:11-27 | the insert succeeds exactly when all four arguments are present, the role is admin/teacher/parent and no row has the e-mail. On success it adds exactly one row with the given values under a fresh, larger id and changes nothing else. Otherwise it returns the opaque IntegrityError text and the store is unchanged |
| Users.GetAllUsers | crud.py:39-45 | one record per Users row, in increasing id order, each carrying that row's id, name, email and role and no password |
| Users.Assignments | crud.py:50-60 | the SET list holds exactly the truthy arguments among name, email and role, each with its own value, in that order |
| Users.UpdateUserBindings | crud.py:50-63 | the generated UPDATE has as many `?` placeholders as `params` has entries, namely the number of supplied fields plus one |
| SqlText.PlaceholderCount | crud.py:62 | an UPDATE built from n column names that contain no `?` has n + 1 placeholders |
| Users.UpdatedRow | crud.py:52-63 | executing the SET list overwrites exactly the columns whose argument is truthy and keeps the others, the password included |
| Users.UpdateUser | crud.py:47-66 | a missing id changes nothing and still reports success. A bad role or an e-mail held by another row raises IntegrityError and changes nothing. Otherwise the one row gets the truthy fields, and other rows and tables are unchanged |
| Users.UpdateUserIdempotent | crud.py:47-66 | repeating an update with the same arguments gives the same reply and store |
| Users.DeleteUser | crud.py:68-77 | the reply is not-found exactly when no row has the id, and then nothing changes. Otherwise exactly that row goes, and the Students rows are untouched |
| Users.DeleteUserTwice | crud.py:68-77 | deleting an existing user succeeds once and then reports not-found |
| Users.CreateThenDeleteUser | crud.py:11-77 | deleting the user just created restores every table; only the AUTOINCREMENT counter keeps the issued id |
| Users.DeletedIdNotReissued | dataBase.py:11 | after a user is deleted, the next create issues a larger id and never the freed one |
| Users.DeleteUserLeavesDanglingStudents | dataBase.py:22-26 | the foreign keys are not enforced, so a Students row that references a deleted user stays as it was |
| Users.CreateUserKeepsInv | dataBase.py:10-16 | create_user keeps unique e-mails, valid roles and issued ids |
| Users.UpdateUserKeepsInv | dataBase.py:10-16 | update_user keeps unique e-mails, valid roles and issued ids |
| Users.DeleteUserKeepsInv | dataBase.py:10-16 | delete_user keeps the table constraints |
| Students.DeleteStudent | crud.py:161-170 | the reply is not-found exactly when no row has the id, and then nothing changes. Otherwise exactly that row goes |
| Students.DeleteStudentTwice | crud.py:161-170 | deleting an existing student succeeds once and then reports not-found |
| Students.DeleteStudentKeepsInv | dataBase.py:18-27 | delete_student keeps the table constraints |
| Students.Assignments | crud.py:128-148 | the SET list holds exactly the truthy name, email and classroom, then parent_id and teacher_id when not None, each with its own value, in that order. It is empty exactly when nothing is supplied |
| Students.UpdateStudentPlaceholders | crud.py:155 | the Students UPDATE has one placeholder per SET column plus one |
| Students.UpdateStudent | crud.py:122-156 | a parent_id that is not a parent user gives the parent error before the teacher check runs. Then a teacher_id that is not a teacher user gives the teacher error. "No fields to update" comes exactly when nothing is supplied. Only when both references resolve and something is supplied is a statement built: the SET list of Students.Assignments, with the student id bound before and after the SET values, so the statement has one placeholder fewer than parameters |
| Students.UpdateStudentCorrected | crud.py:122-156 | the same replies, SET list and statement text as update_student, but with the student id bound once, after the SET values, so every placeholder gets exactly one parameter |
| Students.UpdateStudentParamsMismatch | crud.py:126-156 | as written, the parameter list always has one entry more than the statement has placeholders |
| Students.UpdateStudentRenameMismatch | crud.py:126-156 | a rename binds three parameters to a two-placeholder statement |
| Students.UpdateStudentBindings | crud.py:153-156 | with the student id only at the end, every placeholder gets exactly one parameter |
| Schema.EmptyInv | dataBase.py:10-50 | a freshly created database meets every table constraint |
| Machine.ExecKeepsInv | dataBase.py:10-50 | every writing operation keeps the table constraints, never lowers the Users counter and leaves the Students counter alone |
| Machine.RunKeepsInv | dataBase.py:10-50 | every state reachable from a state that meets the constraints meets them too |
| Machine.UserSeqMonotone | dataBase.py:11 | no operation lowers the Users counter, and a successful create raises it |
| Machine.IssuedIdsIncrease | dataBase.py:11 | over any run, the ids create_user issues strictly increase, all exceed the Users counter at the start, and the counter ends at or above them |
| Machine.IssuedIdsAreNew | dataBase.py:11 | from a state that meets the constraints, every id a run issues exceeds every id present at the start, so no id is handed out twice |

## Left out

- main.py: the FastAPI route handlers only forward their arguments. They are HTTP glue.
- Opening, committing and closing connections and cursors is I/O plumbing. That includes the connection `update_student` leaves open on its early returns.
- `create_student` cannot succeed. Its INSERT names six columns but has five placeholders, and two of the columns are not in the Students table. It always raises.
- `get_user_by_id` binds a bare int where a parameter tuple is needed, so it always raises.
- `get_student_by_id` reads a sixth column from a five-column row.
- `get_students_by_teacher` and `get_all_students` index the list of rows instead of each row.
- The write step of `update_student` is not modelled: the `classroom` column does not exist in the schema. Only its validation, its SET list and its parameter list are modelled (see Findings).
- Users.UpdateUser: requires at least one truthy field. With none, the source sends `UPDATE Users SET  WHERE id = ?`, which the engine rejects as a syntax error; that error is not modelled.
- The text of an IntegrityError (`str(e)`) is left opaque. The model does not fix which constraint the engine reports first.
- Homework and Task have no operations in the code. Only their NOT NULL columns and status CHECK constraints are kept. Their nullable chapter, verse and date columns are left out.
- Ids are unbounded integers. SQLite's 64-bit rowid limit, where AUTOINCREMENT fails with "database or disk is full", is not modelled.
- Users.GetAllUsers: `SELECT *` has no ORDER BY, so SQLite promises no order. The model returns the table scan's rowid order, which is increasing id.
- Concurrency is not modelled. Every operation is one atomic step on the store.

## Findings

| source | as written | input that shows it | evidently intended | confidence | as-written member | corrected member |
|---|---|---|---|---|---|---|
| crud.py:126-156 | `params` starts with `student_id` and ends with it again, so it has one entry more than the UPDATE has placeholders | student 1, name "Ali", no other field: `UPDATE Students SET name = ? WHERE id = ?` has 2 placeholders and `params` is (1, "Ali", 1) | the SET values in order, then `student_id` once for the WHERE clause | high; not executed | Students.UpdateStudentParamsMismatch | Students.UpdateStudentCorrected |
