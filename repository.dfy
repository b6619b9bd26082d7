/** The bun-backed repositories of the layered implementation
    (internal/adapter/repository/task_repository.go and user_repository.go).
    Each write is specified by a function from the store before to an `Effect`
    (the error returned and the store after); the repository methods are proved to
    produce exactly that effect on the shared `Database`. A transaction works on a
    copy of the tables and commits it only when every statement succeeded, so an
    error leaves the store as it was. */
module Repository {
  import opened Common
  import opened Errors
  import opened Store
  import Entity

  // ---------------------------------------------------------------------------
  // Task writes
  // ---------------------------------------------------------------------------

  /** The row `Create` inserts for `task`: its own columns, timestamps from the
      database clock and no primary assignee (it is written afterwards). */
  function InsertedRow(task: Entity.Task, now: Time): TaskRow
    reads task
  {
    TaskRow(task.uuid, task.title, task.description, task.completed, now, now, task.createdById, None)
  }

  /** `Create`: insert `row`, then inside the same transaction one `user_tasks` row per
      listed user, then the primary pointer when users were listed. */
  function CreateEffect(db: Db, row: TaskRow, userIds: seq<Uuid>, primary: Option<Uuid>): (e: Effect)
    requires FreshTask(db, row.uuid)
    ensures e.err.None? <==> (forall u | u in userIds :: u in db.users) && Distinct(userIds)
    ensures e.err.Some? ==> e.db == db
    ensures Distinct(userIds) && e.err.Some? ==> e.err == Some(NoRows)
    ensures (forall u | u in userIds :: u in db.users) && e.err.Some? ==> e.err == Some(DuplicateKey)
    ensures e.err.None? ==> e.db.users == db.users && row.uuid in e.db.tasks
    ensures e.err.None? ==> e.db.tasks == db.tasks[row.uuid := e.db.tasks[row.uuid]]
    ensures e.err.None? ==> e.db.tasks[row.uuid].(assignedToId := row.assignedToId) == row
    ensures e.err.None? && userIds == [] ==> e.db.tasks[row.uuid] == row
    ensures e.err.None? && userIds != [] && primary.Some? ==> e.db.tasks[row.uuid].assignedToId == primary
    ensures e.err.None? ==> e.db.userTasks == db.userTasks + PairsOf(row.uuid, userIds)
    ensures Wf(db) && e.err.None? ==> Wf(e.db)
  {
    LinkUsersOutcome(db, row.uuid, userIds);
    LinkUsersFailureKind(db, row.uuid, userIds);
    match LinkUsers(db, row.uuid, userIds)
    case Failure(MissingUser(_)) => Effect(Some(NoRows), db)
    case Failure(DuplicateLink(_)) => Effect(Some(DuplicateKey), db)
    case Success(links) =>
      var pointer := if userIds != [] && primary.Some? then primary else row.assignedToId;
      Effect(None, db.(tasks := db.tasks[row.uuid := row.(assignedToId := pointer)], userTasks := links))
  }

  /** `Update`: writes title, description, completed, updated_at and assigned_to_id of
      the task's row; a row that is not there is an update of zero rows, not an error. */
  function UpdateEffect(db: Db, id: Uuid, title: string, description: string, completed: bool,
                        updatedAt: Time, assignedToId: Option<Uuid>): (e: Effect)
    ensures e.err == None
    ensures e.db.users == db.users && e.db.userTasks == db.userTasks && e.db.tasks.Keys == db.tasks.Keys
    ensures forall t | t in db.tasks && t != id :: e.db.tasks[t] == db.tasks[t]
    ensures id in db.tasks ==> e.db.tasks[id] == db.tasks[id].(title := title, description := description,
      completed := completed, updatedAt := updatedAt, assignedToId := assignedToId)
    ensures CreatorsKept(db, e.db)
    ensures Wf(db) ==> Wf(e.db)
  {
    if id !in db.tasks then Effect(None, db)
    else
      var row := db.tasks[id].(title := title, description := description, completed := completed,
                               updatedAt := updatedAt, assignedToId := assignedToId);
      Effect(None, db.(tasks := db.tasks[id := row]))
  }

  /** `Delete`: the select fails on a missing task; otherwise the row goes (soft delete:
      its `user_tasks` rows stay). */
  function DeleteEffect(db: Db, id: Uuid): (e: Effect)
    ensures e.err.None? <==> id in db.tasks
    ensures e.err.Some? ==> e.err == Some(NoRows) && e.db == db
    ensures e.err.None? ==> e.db == db.(tasks := db.tasks - {id})
    ensures id !in e.db.tasks && CreatorsKept(db, e.db) && CompletionKept(db, e.db)
    ensures Wf(db) ==> Wf(e.db)
  {
    if id !in db.tasks then Effect(Some(NoRows), db)
    else Effect(None, db.(tasks := db.tasks - {id}))
  }

  /** `AssignTaskToUser`: both must exist; the pair is inserted unless already present,
      and the primary pointer moves to the user. */
  function AssignEffect(db: Db, t: Uuid, u: Uuid): (e: Effect)
    ensures e.err.None? <==> t in db.tasks && u in db.users
    ensures e.err.Some? ==> e.err == Some(NoRows) && e.db == db
    ensures e.err.None? ==> (t, u) in e.db.userTasks && e.db.userTasks - {(t, u)} == db.userTasks - {(t, u)}
    ensures e.err.None? ==> e.db.users == db.users
    ensures e.err.None? ==> e.db.tasks == db.tasks[t := db.tasks[t].(assignedToId := Some(u))]
    ensures CreatorsKept(db, e.db) && CompletionKept(db, e.db)
    ensures Wf(db) ==> Wf(e.db)
  {
    if t !in db.tasks || u !in db.users then Effect(Some(NoRows), db)
    else
      var links := if (t, u) in db.userTasks then db.userTasks else db.userTasks + {(t, u)};
      Effect(None, db.(userTasks := links, tasks := db.tasks[t := db.tasks[t].(assignedToId := Some(u))]))
  }

  /** Re-assigning the same user is accepted and changes nothing more. */
  lemma AssignIdempotent(db: Db, t: Uuid, u: Uuid)
    requires AssignEffect(db, t, u).err.None?
    ensures AssignEffect(AssignEffect(db, t, u).db, t, u) == AssignEffect(db, t, u)
  {
    var once := AssignEffect(db, t, u).db;
    assert once.tasks[t].(assignedToId := Some(u)) == once.tasks[t];
    assert once.tasks[t := once.tasks[t]] == once.tasks;
  }

  const AlreadyCompleted := Plain("task is already completed")

  /** `CompleteTask` of the repository: only the `completed` column is written. */
  function CompleteEffect(db: Db, t: Uuid): (e: Effect)
    ensures e.err.None? <==> t in db.tasks && !db.tasks[t].completed
    ensures t !in db.tasks ==> e.err == Some(NoRows)
    ensures t in db.tasks && db.tasks[t].completed ==> e.err == Some(AlreadyCompleted)
    ensures e.err.Some? ==> e.db == db
    ensures e.err.None? ==> e.db == db.(tasks := db.tasks[t := db.tasks[t].(completed := true)])
    ensures CreatorsKept(db, e.db) && CompletionKept(db, e.db)
    ensures Wf(db) ==> Wf(e.db)
  {
    if t !in db.tasks then Effect(Some(NoRows), db)
    else if db.tasks[t].completed then Effect(Some(AlreadyCompleted), db)
    else Effect(None, db.(tasks := db.tasks[t := db.tasks[t].(completed := true)]))
  }

  /** Completion is one-way: once it succeeded, a second completion is refused. */
  lemma CompleteTwiceFails(db: Db, t: Uuid)
    requires CompleteEffect(db, t).err.None?
    ensures CompleteEffect(CompleteEffect(db, t).db, t) == Effect(Some(AlreadyCompleted), CompleteEffect(db, t).db)
  {
  }

  const AlreadyAssigned := Plain("user is already assigned to this task")

  /** `AddUserToTask`: refuses a pair that is already present and never moves the
      primary pointer. */
  function AddUserEffect(db: Db, t: Uuid, u: Uuid): (e: Effect)
    ensures e.err.None? <==> t in db.tasks && u in db.users && (t, u) !in db.userTasks
    ensures t !in db.tasks || u !in db.users ==> e.err == Some(NoRows)
    ensures t in db.tasks && u in db.users && (t, u) in db.userTasks ==> e.err == Some(AlreadyAssigned)
    ensures e.err.Some? ==> e.db == db
    ensures e.db.tasks == db.tasks && e.db.users == db.users
    ensures e.err.None? ==> e.db.userTasks == db.userTasks + {(t, u)} && |e.db.userTasks| == |db.userTasks| + 1
    ensures Wf(db) ==> Wf(e.db)
  {
    if t !in db.tasks || u !in db.users then Effect(Some(NoRows), db)
    else if (t, u) in db.userTasks then Effect(Some(AlreadyAssigned), db)
    else Effect(None, db.(userTasks := db.userTasks + {(t, u)}))
  }

  // ---------------------------------------------------------------------------
  // User writes
  // ---------------------------------------------------------------------------

  /** The row `UserRepository.Create` inserts: uuid, name, email and password, with the
      timestamps from the database clock. */
  function InsertedUser(user: Entity.User, now: Time): UserRow
    reads user
  {
    UserRow(user.uuid, user.name, user.email, user.password, now, now)
  }

  /** An insert into `users`: the unique index on `email` refuses a second holder. */
  function InsertUserEffect(db: Db, row: UserRow): (e: Effect)
    requires row.uuid !in db.users
    ensures e.err.None? <==> !EmailTaken(db.users, row.email)
    ensures e.err.Some? ==> e.err == Some(DuplicateKey) && e.db == db
    ensures e.err.None? ==> e.db == db.(users := db.users[row.uuid := row])
    ensures Wf(db) ==> Wf(e.db)
  {
    if EmailTaken(db.users, row.email) then Effect(Some(DuplicateKey), db)
    else Effect(None, db.(users := db.users[row.uuid := row]))
  }

  /** `UserRepository.Update`: writes name, email, password and updated_at of the row;
      a missing row is an update of zero rows; the unique index on `email` refuses an
      email held by another user. */
  function UpdateUserEffect(db: Db, id: Uuid, name: string, email: string, password: string,
                            updatedAt: Time): (e: Effect)
    ensures e.err.Some? <==> id in db.users && exists v | v in db.users && v != id :: db.users[v].email == email
    ensures e.err.Some? ==> e.err == Some(DuplicateKey) && e.db == db
    ensures e.db.tasks == db.tasks && e.db.userTasks == db.userTasks && e.db.users.Keys == db.users.Keys
    ensures e.err.None? && id in db.users ==>
      e.db.users[id] == db.users[id].(name := name, email := email, password := password, updatedAt := updatedAt)
    ensures forall v | v in db.users && v != id :: e.db.users[v] == db.users[v]
    ensures Wf(db) ==> Wf(e.db)
  {
    if id !in db.users then Effect(None, db)
    else if exists v | v in db.users && v != id :: db.users[v].email == email then Effect(Some(DuplicateKey), db)
    else
      var row := db.users[id].(name := name, email := email, password := password, updatedAt := updatedAt);
      Effect(None, db.(users := db.users[id := row]))
  }

  /** `UserRepository.Delete`: the select fails on a missing user; otherwise the row goes. */
  function DeleteUserEffect(db: Db, id: Uuid): (e: Effect)
    ensures e.err.None? <==> id in db.users
    ensures e.err.Some? ==> e.err == Some(NoRows) && e.db == db
    ensures e.err.None? ==> e.db == db.(users := db.users - {id})
    ensures Wf(db) ==> Wf(e.db)
  {
    if id !in db.users then Effect(Some(NoRows), db)
    else Effect(None, db.(users := db.users - {id}))
  }

  // ---------------------------------------------------------------------------
  // Loaded entities
  // ---------------------------------------------------------------------------

  /** A relation user loaded from `row`: UUID, name and email. */
  ghost predicate Summarises(u: Entity.User, row: UserRow)
    reads u
  {
    u.uuid == row.uuid && u.name == row.name && u.email == row.email
  }

  /** `t` is what `GetByUUID` builds from `row` in store `db`: the row's columns, the
      creator and primary assignee when they exist, and the `users` relation (the
      task's `user_tasks` rows joined with existing users, each once). */
  ghost predicate Mirrors(t: Entity.Task, row: TaskRow, db: Db)
    reads t, t.createdBy, t.assignedTo, t.users
  {
    && t.uuid == row.uuid && t.title == row.title && t.description == row.description
    && t.completed == row.completed && t.createdAt == row.createdAt && t.updatedAt == row.updatedAt
    && t.createdById == row.createdById && t.assignedToId == row.assignedToId
    && (t.createdBy != null <==> row.createdById in db.users)
    && (t.createdBy != null ==> Summarises(t.createdBy, db.users[row.createdById]))
    && (t.assignedTo != null <==> row.assignedToId.Some? && row.assignedToId.value in db.users)
    && (t.assignedTo != null ==> Summarises(t.assignedTo, db.users[row.assignedToId.value]))
    && LoadedAssignees(t.users, row.uuid, db)
  }

  /** `users` is the loaded relation of task `id`: a summary of each of its existing
      assignees, each once. */
  ghost predicate LoadedAssignees(users: seq<Entity.User>, id: Uuid, db: Db)
    reads users
  {
    && Distinct(Entity.Ids(users))
    && (forall u | u in Entity.Ids(users) :: u in AssigneesOf(db, id))
    && (forall u | u in AssigneesOf(db, id) :: u in Entity.Ids(users))
    && (forall i | 0 <= i < |users| :: users[i].uuid in db.users && Summarises(users[i], db.users[users[i].uuid]))
  }

  /** A user loaded by `UserRepository`: every column of its row, no tasks. */
  ghost predicate MirrorsUser(u: Entity.User, row: UserRow)
    reads u
  {
    && u.uuid == row.uuid && u.name == row.name && u.email == row.email && u.password == row.password
    && u.createdAt == row.createdAt && u.updatedAt == row.updatedAt && u.tasks == []
  }

  /** The relation object for `row`: UUID, name and email only. */
  method LoadSummary(row: UserRow) returns (u: Entity.User)
    ensures fresh(u) && Summarises(u, row)
  {
    u := new Entity.User(row.uuid, row.name, row.email, "", 0, 0);
  }

  /** A fresh task holding the columns of `row` and the given relations. */
  method NewLoadedTask(row: TaskRow, createdBy: Entity.User?, assignedTo: Entity.User?, users: seq<Entity.User>)
    returns (t: Entity.Task)
    ensures fresh(t) && t.createdBy == createdBy && t.assignedTo == assignedTo && t.users == users
    ensures t.uuid == row.uuid && t.title == row.title && t.description == row.description
    ensures t.completed == row.completed && t.createdAt == row.createdAt && t.updatedAt == row.updatedAt
    ensures t.createdById == row.createdById && t.assignedToId == row.assignedToId
  {
    t := new Entity.Task(row.uuid, row.title, row.description, row.completed,
                         row.createdAt, row.updatedAt, row.createdById, row.assignedToId);
    t.createdBy, t.assignedTo, t.users := createdBy, assignedTo, users;
  }

  /** The insert loop of `TaskRepository.Create`: for each listed user, in order, the
      user must exist and the link must be new; the first failure stops the loop. */
  method LinkEach(db: Db, t: Uuid, ids: seq<Uuid>) returns (r: Result<set<Assignment>, LinkFailure>)
    ensures r == LinkUsers(db, t, ids)
  {
    var links := db.userTasks;
    var i := 0;
    while i < |ids|
      invariant 0 <= i <= |ids|
      invariant LinkUsers(db, t, ids[..i]) == Success(links)
    {
      var u := ids[i];
      assert ids[..i + 1][..i] == ids[..i];
      if u !in db.users {
        LinkUsersPrefixFailure(db, t, ids, i + 1);
        return Failure(MissingUser(u));
      }
      if (t, u) in links {
        LinkUsersPrefixFailure(db, t, ids, i + 1);
        return Failure(DuplicateLink(u));
      }
      links := links + {(t, u)};
      i := i + 1;
    }
    assert ids[..i] == ids;
    return Success(links);
  }

  // ---------------------------------------------------------------------------
  // Repositories
  // ---------------------------------------------------------------------------

  class TaskRepository {
    const db: Database

    constructor (db: Database)
      ensures this.db == db
    {
      this.db := db;
    }

    method Create(task: Entity.Task, now: Time) returns (err: Option<GoError>)
      requires FreshTask(db.State(), task.uuid)
      modifies db
      ensures Effect(err, db.State()) ==
        CreateEffect(old(db.State()), InsertedRow(task, now), Entity.Ids(task.users), task.assignedToId)
    {
      var before := db.State();
      var row := InsertedRow(task, now);
      var tx := before.(tasks := before.tasks[row.uuid := row]);
      var ids := Entity.Ids(task.users);
      if |ids| > 0 {
        var links := LinkEach(before, row.uuid, ids);
        match links {
          case Failure(MissingUser(_)) => return Some(NoRows);
          case Failure(DuplicateLink(_)) => return Some(DuplicateKey);
          case Success(l) => tx := tx.(userTasks := l);
        }
        if task.assignedToId.Some? {
          tx := tx.(tasks := tx.tasks[row.uuid := row.(assignedToId := task.assignedToId)]);
        }
      }
      db.Commit(tx);
      return None;
    }

    /** Loads a task with its creator, primary assignee and users. */
    method GetByUUID(id: Uuid) returns (r: Result<Entity.Task, GoError>)
      requires db.Valid()
      ensures id !in db.tasks ==> r.Failure? && r.error == NoRows
      ensures id in db.tasks ==> r.Success? && fresh(r.value) && Mirrors(r.value, db.tasks[id], db.State())
    {
      if id !in db.tasks {
        return Failure(NoRows);
      }
      var row := db.tasks[id];
      var users := LoadAssignees(id);
      ghost var st := db.State();
      assert LoadedAssignees(users, row.uuid, st);
      var createdBy: Entity.User? := null;
      if row.createdById in db.users {
        createdBy := LoadSummary(db.users[row.createdById]);
      }
      var assignedTo: Entity.User? := null;
      if row.assignedToId.Some? && row.assignedToId.value in db.users {
        assignedTo := LoadSummary(db.users[row.assignedToId.value]);
      }
      var t := NewLoadedTask(row, createdBy, assignedTo, users);
      return Success(t);
    }

    /** The `users` relation of task `id`: a fresh summary of each existing assignee, once each. */
    method LoadAssignees(id: Uuid) returns (users: seq<Entity.User>)
      requires db.Valid()
      ensures LoadedAssignees(users, id, db.State()) && forall i | 0 <= i < |users| :: fresh(users[i])
    {
      var ids := Enumerate(AssigneesOf(db.State(), id));
      users := [];
      while |users| < |ids|
        invariant |users| <= |ids| && Entity.Ids(users) == ids[..|users|]
        invariant forall i | 0 <= i < |users| ::
          fresh(users[i]) && users[i].uuid in db.users && Summarises(users[i], db.users[users[i].uuid])
      {
        var u := ids[|users|];
        assert u in AssigneesOf(db.State(), id);
        var user := LoadSummary(db.users[u]);
        assert Entity.Ids(users + [user]) == Entity.Ids(users) + [user.uuid];
        assert ids[..|users| + 1] == ids[..|users|] + [u];
        users := users + [user];
      }
      assert ids[..|users|] == ids;
    }

    method Update(task: Entity.Task) returns (err: Option<GoError>)
      modifies db
      ensures Effect(err, db.State()) == UpdateEffect(old(db.State()), task.uuid, task.title,
        task.description, task.completed, task.updatedAt, task.assignedToId)
    {
      var e := UpdateEffect(db.State(), task.uuid, task.title, task.description, task.completed,
                            task.updatedAt, task.assignedToId);
      db.Commit(e.db);
      return None;
    }

    method Delete(id: Uuid) returns (err: Option<GoError>)
      modifies db
      ensures Effect(err, db.State()) == DeleteEffect(old(db.State()), id)
    {
      if id !in db.tasks {
        return Some(NoRows);
      }
      db.Commit(db.State().(tasks := db.tasks - {id}));
      return None;
    }

    method AssignTaskToUser(t: Uuid, u: Uuid) returns (err: Option<GoError>)
      modifies db
      ensures Effect(err, db.State()) == AssignEffect(old(db.State()), t, u)
    {
      if t !in db.tasks || u !in db.users {
        return Some(NoRows);
      }
      var tx := db.State();
      var linked := (t, u) in tx.userTasks;
      if !linked {
        tx := tx.(userTasks := tx.userTasks + {(t, u)});
      }
      tx := tx.(tasks := tx.tasks[t := tx.tasks[t].(assignedToId := Some(u))]);
      db.Commit(tx);
      return None;
    }

    method CompleteTask(t: Uuid) returns (err: Option<GoError>)
      modifies db
      ensures Effect(err, db.State()) == CompleteEffect(old(db.State()), t)
    {
      if t !in db.tasks {
        return Some(NoRows);
      }
      var row := db.tasks[t];
      if row.completed {
        return Some(AlreadyCompleted);
      }
      db.Commit(db.State().(tasks := db.tasks[t := row.(completed := true)]));
      return None;
    }

    method AddUserToTask(t: Uuid, u: Uuid) returns (err: Option<GoError>)
      modifies db
      ensures Effect(err, db.State()) == AddUserEffect(old(db.State()), t, u)
    {
      if t !in db.tasks || u !in db.users {
        return Some(NoRows);
      }
      if (t, u) in db.userTasks {
        return Some(AlreadyAssigned);
      }
      db.Commit(db.State().(userTasks := db.userTasks + {(t, u)}));
      return None;
    }

    /** Tasks whose creator is `u`, newest first. */
    method GetTasksCreatedByUser(u: Uuid) returns (rows: seq<TaskRow>)
      requires db.Valid()
      ensures IsSelection(db.State(), CreatedBy(u), rows)
    {
      rows := db.Select(CreatedBy(u));
    }

    /** Tasks whose primary pointer is `u` (not every task `u` is linked to), newest first. */
    method GetTasksAssignedToUser(u: Uuid) returns (rows: seq<TaskRow>)
      requires db.Valid()
      ensures IsSelection(db.State(), AssignedTo(u), rows)
    {
      rows := db.Select(AssignedTo(u));
    }
  }

  class UserRepository {
    const db: Database

    constructor (db: Database)
      ensures this.db == db
    {
      this.db := db;
    }

    method Create(user: Entity.User, now: Time) returns (err: Option<GoError>)
      requires user.uuid !in db.users
      modifies db
      ensures Effect(err, db.State()) == InsertUserEffect(old(db.State()), InsertedUser(user, now))
    {
      var row := InsertedUser(user, now);
      if EmailTaken(db.users, row.email) {
        return Some(DuplicateKey);
      }
      db.Commit(db.State().(users := db.users[row.uuid := row]));
      return None;
    }

    method GetByUUID(id: Uuid) returns (r: Result<Entity.User, GoError>)
      ensures id !in db.users ==> r.Failure? && r.error == NoRows
      ensures id in db.users ==> r.Success? && fresh(r.value) && MirrorsUser(r.value, db.users[id])
    {
      if id !in db.users {
        return Failure(NoRows);
      }
      var row := db.users[id];
      var u := new Entity.User(row.uuid, row.name, row.email, row.password, row.createdAt, row.updatedAt);
      return Success(u);
    }

    method GetByEmail(email: string) returns (r: Result<Entity.User, GoError>)
      ensures !EmailTaken(db.users, email) ==> r.Failure? && r.error == NoRows
      ensures EmailTaken(db.users, email) ==> r.Success? && fresh(r.value)
      ensures r.Success? ==> exists v | v in db.users :: db.users[v].email == email && MirrorsUser(r.value, db.users[v])
    {
      if !EmailTaken(db.users, email) {
        return Failure(NoRows);
      }
      var v :| v in db.users && db.users[v].email == email;
      var row := db.users[v];
      var u := new Entity.User(row.uuid, row.name, row.email, row.password, row.createdAt, row.updatedAt);
      return Success(u);
    }

    method Update(user: Entity.User) returns (err: Option<GoError>)
      modifies db
      ensures Effect(err, db.State()) ==
        UpdateUserEffect(old(db.State()), user.uuid, user.name, user.email, user.password, user.updatedAt)
    {
      var e := UpdateUserEffect(db.State(), user.uuid, user.name, user.email, user.password, user.updatedAt);
      db.Commit(e.db);
      return e.err;
    }

    method Delete(id: Uuid) returns (err: Option<GoError>)
      modifies db
      ensures Effect(err, db.State()) == DeleteUserEffect(old(db.State()), id)
    {
      if id !in db.users {
        return Some(NoRows);
      }
      db.Commit(db.State().(users := db.users - {id}));
      return None;
    }

    method EmailExists(email: string) returns (found: bool)
      ensures found <==> EmailTaken(db.users, email)
    {
      found := EmailTaken(db.users, email);
    }
  }
}
