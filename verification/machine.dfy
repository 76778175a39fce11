/** The record store as a state machine: the operations that write, run one
    after another from a start state. */
module Machine {
  import opened Values
  import opened Schema
  import Users
  import Students

  /** One call of a writing operation, with its arguments. */
  datatype Op =
    | CreateUser(name: Option<string>, email: Option<string>, password: Option<string>, role: Option<string>)
    | UpdateUser(userId: int, newName: Option<string>, newEmail: Option<string>, newRole: Option<string>)
    | DeleteUser(deletedUser: int)
    | DeleteStudent(deletedStudent: int)

  /** The call is one the source can issue: update_user needs a field to set. */
  predicate Callable(op: Op) {
    op.UpdateUser? ==> Truthy(op.newName) || Truthy(op.newEmail) || Truthy(op.newRole)
  }

  function Exec(s: Store, op: Op): Step
    requires Callable(op)
  {
    match op
    case CreateUser(name, email, password, role) => Users.CreateUser(s, name, email, password, role)
    case UpdateUser(id, name, email, role) => Users.UpdateUser(s, id, name, email, role)
    case DeleteUser(id) => Users.DeleteUser(s, id)
    case DeleteStudent(id) => Students.DeleteStudent(s, id)
  }

  /** Each operation keeps the schema's constraints and never lowers a counter. */
  lemma ExecKeepsInv(s: Store, op: Op)
    requires Callable(op)
    requires Inv(s)
    ensures Inv(Exec(s, op).store)
    ensures Exec(s, op).store.userSeq >= s.userSeq
    ensures Exec(s, op).store.studentSeq == s.studentSeq
  {
    match op
    case CreateUser(name, email, password, role) =>
      Users.CreateUserKeepsInv(s, name, email, password, role);
    case UpdateUser(id, name, email, role) =>
      Users.UpdateUserKeepsInv(s, id, name, email, role);
    case DeleteUser(id) =>
      Users.DeleteUserKeepsInv(s, id);
    case DeleteStudent(id) =>
      Students.DeleteStudentKeepsInv(s, id);
  }

  function Run(s: Store, ops: seq<Op>): Store
    requires forall i :: 0 <= i < |ops| ==> Callable(ops[i])
    decreases |ops|
  {
    if ops == [] then s else Run(Exec(s, ops[0]).store, ops[1..])
  }

  /** The Users ids handed out by the successful create_user calls of a run, in order. */
  function Issued(s: Store, ops: seq<Op>): seq<int>
    requires forall i :: 0 <= i < |ops| ==> Callable(ops[i])
    decreases |ops|
  {
    if ops == [] then []
    else
      var step := Exec(s, ops[0]);
      (if ops[0].CreateUser? && step.reply.Message? then [step.store.userSeq] else [])
      + Issued(step.store, ops[1..])
  }

  /** Every state a run reaches from a state that meets the constraints meets them too. */
  lemma {:induction false} RunKeepsInv(s: Store, ops: seq<Op>)
    requires forall i :: 0 <= i < |ops| ==> Callable(ops[i])
    requires Inv(s)
    ensures Inv(Run(s, ops))
    decreases |ops|
  {
    if ops != [] {
      ExecKeepsInv(s, ops[0]);
      RunKeepsInv(Exec(s, ops[0]).store, ops[1..]);
    }
  }

  /** Every id lies in lo+1..hi. */
  predicate Within(ids: seq<int>, lo: int, hi: int) {
    forall i :: 0 <= i < |ids| ==> lo < ids[i] <= hi
  }

  predicate Ascending(ids: seq<int>) {
    forall i, j :: 0 <= i < j < |ids| ==> ids[i] < ids[j]
  }

  /** AUTOINCREMENT: the ids a run issues are strictly increasing, each is
      larger than the Users counter at the start of the run, and the counter
      ends at or above all of them. */
  lemma {:induction false} IssuedIdsIncrease(s: Store, ops: seq<Op>)
    requires forall i :: 0 <= i < |ops| ==> Callable(ops[i])
    ensures Within(Issued(s, ops), s.userSeq, Run(s, ops).userSeq)
    ensures Ascending(Issued(s, ops))
    ensures s.userSeq <= Run(s, ops).userSeq
    decreases |ops|
  {
    if ops != [] {
      var step := Exec(s, ops[0]);
      var mid := step.store.userSeq;
      UserSeqMonotone(s, ops[0]);
      IssuedIdsIncrease(step.store, ops[1..]);
      var rest := Issued(step.store, ops[1..]);
      var last := Run(step.store, ops[1..]).userSeq;
      assert Run(s, ops) == Run(step.store, ops[1..]);
      if ops[0].CreateUser? && step.reply.Message? {
        assert Issued(s, ops) == [mid] + rest;
        Prepend(mid, rest, s.userSeq, last);
      } else {
        assert Issued(s, ops) == rest;
        assert Within(rest, s.userSeq, last);
      }
    }
  }

  /** From a state that meets the constraints, every id a run issues is larger
      than every id present at the start. With IssuedIdsIncrease, no row the
      run deletes, whether present at the start or created during the run,
      lends its id to a later create_user. */
  lemma IssuedIdsAreNew(s: Store, ops: seq<Op>)
    requires forall i :: 0 <= i < |ops| ==> Callable(ops[i])
    requires Inv(s)
    ensures forall i, k :: 0 <= i < |Issued(s, ops)| && k in s.users ==> k < Issued(s, ops)[i]
    ensures forall i :: 0 <= i < |Issued(s, ops)| ==> Issued(s, ops)[i] !in s.users
  {
    IssuedIdsIncrease(s, ops);
  }

  lemma Prepend(x: int, rest: seq<int>, lo: int, hi: int)
    requires lo < x <= hi
    requires Within(rest, x, hi) && Ascending(rest)
    ensures Within([x] + rest, lo, hi) && Ascending([x] + rest)
  {
    var ids := [x] + rest;
    forall i, j | 0 <= i < j < |ids|
      ensures ids[i] < ids[j]
    {
      assert ids[j] == rest[j - 1];
      if i > 0 {
        assert ids[i] == rest[i - 1];
      }
    }
  }

  /** One operation never lowers the Users counter, and a successful
      create_user raises it to the id it issued. */
  lemma UserSeqMonotone(s: Store, op: Op)
    requires Callable(op)
    ensures Exec(s, op).store.userSeq >= s.userSeq
    ensures op.CreateUser? && Exec(s, op).reply.Message? ==> Exec(s, op).store.userSeq > s.userSeq
  {
  }
}
