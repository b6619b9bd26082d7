/** The presenters of the layered implementation (internal/adapter/presenter): entities
    copied into the response records sent to clients. A nil entity pointer is `null`,
    a nil response pointer is `None`. */
module Presenter {
  import opened Common
  import opened Store
  import Entity
  import Repository

  /** `time.Time{}`, the zero clock reading a zero-valued response carries. */
  const ZeroTime: Time := 0

  /** `dto.UserSummary`. */
  datatype UserSummary = UserSummary(id: Uuid, name: string, email: string)

  /** `dto.UserResponse`: there is no password field. */
  datatype UserResponse = UserResponse(id: Uuid, name: string, email: string, createdAt: Time, updatedAt: Time)

  /** `dto.TaskResponse`. `createdBy` is a value (zero when unknown), `assignedTo` a pointer. */
  datatype TaskResponse = TaskResponse(
    id: Uuid, title: string, description: string, completed: bool,
    createdAt: Time, updatedAt: Time,
    createdBy: UserSummary, assignedTo: Option<UserSummary>, users: seq<UserSummary>)

  const ZeroSummary := UserSummary(NilUuid, "", "")

  const ZeroUserResponse := UserResponse(NilUuid, "", "", ZeroTime, ZeroTime)

  const ZeroTaskResponse := TaskResponse(NilUuid, "", "", false, ZeroTime, ZeroTime, ZeroSummary, None, [])

  /** The summary of a non-nil user: its UUID, name and email. */
  function SummaryOf(u: Entity.User): (s: UserSummary)
    reads u
    ensures s.id == u.uuid && s.name == u.name && s.email == u.email
  {
    UserSummary(u.uuid, u.name, u.email)
  }

  /** What `TaskPresenter.ToDTO` gives for a non-nil task. */
  function TaskDTO(t: Entity.Task): (r: TaskResponse)
    reads t, t.createdBy, t.assignedTo, t.users
    ensures r.id == t.uuid && r.title == t.title && r.description == t.description
    ensures r.completed == t.completed && r.createdAt == t.createdAt && r.updatedAt == t.updatedAt
    ensures r.assignedTo.None? <==> t.assignedTo == null
    ensures |r.users| == |t.users| && forall i | 0 <= i < |r.users| :: r.users[i].id == t.users[i].uuid
  {
    var us := t.users;
    TaskResponse(
      t.uuid, t.title, t.description, t.completed, t.createdAt, t.updatedAt,
      if t.createdBy == null then ZeroSummary else SummaryOf(t.createdBy),
      if t.assignedTo == null then None else Some(SummaryOf(t.assignedTo)),
      seq(|us|, i reads us requires 0 <= i < |us| => SummaryOf(us[i])))
  }

  /** `TaskPresenter.ToDTO`: nil for a nil task; the `users` relation is copied into a
      slice of the same length, index by index. */
  method TaskToDTO(t: Entity.Task?) returns (r: Option<TaskResponse>)
    ensures t == null <==> r.None?
    ensures t != null ==> r == Some(TaskDTO(t))
  {
    if t == null {
      return None;
    }
    var users := [];
    var i := 0;
    while i < |t.users|
      invariant 0 <= i <= |t.users| && |users| == i
      invariant forall k | 0 <= k < i :: users[k] == SummaryOf(t.users[k])
    {
      users := users + [SummaryOf(t.users[i])];
      i := i + 1;
    }
    var createdBy := ZeroSummary;
    if t.createdBy != null {
      createdBy := SummaryOf(t.createdBy);
    }
    var assignedTo := None;
    if t.assignedTo != null {
      assignedTo := Some(SummaryOf(t.assignedTo));
    }
    assert users == TaskDTO(t).users;
    r := Some(TaskResponse(t.uuid, t.title, t.description, t.completed, t.createdAt, t.updatedAt,
                           createdBy, assignedTo, users));
  }

  /** `TaskPresenter.ToDTOList`: a nil list gives an empty list; otherwise one response per
      task in order, a nil task leaving the zero response in its place. */
  method TaskToDTOList(tasks: Option<seq<Entity.Task?>>) returns (r: seq<TaskResponse>)
    ensures tasks.None? ==> r == []
    ensures tasks.Some? ==> |r| == |tasks.value|
    ensures tasks.Some? ==> forall i | 0 <= i < |r| ::
      r[i] == if tasks.value[i] == null then ZeroTaskResponse else TaskDTO(tasks.value[i])
  {
    if tasks.None? {
      return [];
    }
    var ts := tasks.value;
    r := [];
    var i := 0;
    while i < |ts|
      invariant 0 <= i <= |ts| && |r| == i
      invariant forall k | 0 <= k < i :: r[k] == if ts[k] == null then ZeroTaskResponse else TaskDTO(ts[k])
    {
      var dto := TaskToDTO(ts[i]);
      r := r + [if dto.Some? then dto.value else ZeroTaskResponse];
      i := i + 1;
    }
  }

  /** A task as loaded by the repository is presented with the row's columns, the creator's
      summary when the creator exists, and exactly the task's existing assignees, each once. */
  lemma LoadedTaskDTO(t: Entity.Task, row: TaskRow, db: Db)
    requires Wf(db) && Repository.Mirrors(t, row, db)
    ensures TaskDTO(t).id == row.uuid && TaskDTO(t).completed == row.completed
    ensures row.createdById in db.users ==> TaskDTO(t).createdBy.id == row.createdById
    ensures row.createdById !in db.users ==> TaskDTO(t).createdBy == ZeroSummary
    ensures forall s | s in TaskDTO(t).users :: s.id in AssigneesOf(db, row.uuid)
    ensures forall u | u in AssigneesOf(db, row.uuid) :: exists s | s in TaskDTO(t).users :: s.id == u
    ensures Distinct(TaskDTO(t).users)
  {
    var d := TaskDTO(t);
    forall s | s in d.users ensures s.id in AssigneesOf(db, row.uuid) {
      var k :| 0 <= k < |d.users| && d.users[k] == s;
      assert Entity.Ids(t.users)[k] == s.id;
    }
    forall u | u in AssigneesOf(db, row.uuid) ensures exists s | s in d.users :: s.id == u {
      var k :| 0 <= k < |t.users| && Entity.Ids(t.users)[k] == u;
      assert d.users[k] in d.users;
    }
    forall i, j | 0 <= i < j < |d.users| ensures d.users[i] != d.users[j] {
      assert Entity.Ids(t.users)[i] != Entity.Ids(t.users)[j];
    }
  }

  /** `UserPresenter.ToDTO`: nil for a nil user; otherwise UUID, name, email and times. */
  function UserToDTO(u: Entity.User?): (r: Option<UserResponse>)
    reads u
    ensures u == null <==> r.None?
    ensures r.Some? ==> r.value.id == u.uuid && r.value.name == u.name && r.value.email == u.email
    ensures r.Some? ==> r.value.createdAt == u.createdAt && r.value.updatedAt == u.updatedAt
  {
    if u == null then None
    else Some(UserResponse(u.uuid, u.name, u.email, u.createdAt, u.updatedAt))
  }

  /** `UserPresenter.ToSummary`: nil for a nil user; otherwise UUID, name and email. */
  function UserToSummary(u: Entity.User?): (r: Option<UserSummary>)
    reads u
    ensures u == null <==> r.None?
    ensures r.Some? ==> r.value.id == u.uuid && r.value.name == u.name && r.value.email == u.email
  {
    if u == null then None else Some(SummaryOf(u))
  }

  /** `UserPresenter.ToDTOList`: a nil list gives an empty list; otherwise one response per
      user in order, a nil user leaving the zero response in its place. */
  method UserToDTOList(users: Option<seq<Entity.User?>>) returns (r: seq<UserResponse>)
    ensures users.None? ==> r == []
    ensures users.Some? ==> |r| == |users.value|
    ensures users.Some? ==> forall i | 0 <= i < |r| ::
      r[i] == if users.value[i] == null then ZeroUserResponse else UserToDTO(users.value[i]).value
  {
    if users.None? {
      return [];
    }
    var us := users.value;
    r := [];
    var i := 0;
    while i < |us|
      invariant 0 <= i <= |us| && |r| == i
      invariant forall k | 0 <= k < i ::
        r[k] == if us[k] == null then ZeroUserResponse else UserToDTO(us[k]).value
    {
      var dto := UserToDTO(us[i]);
      r := r + [if dto.Some? then dto.value else ZeroUserResponse];
      i := i + 1;
    }
  }
}
