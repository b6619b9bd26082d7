/** The legacy flat implementation (models/task.go, models/user.go): the task record is
    its own active record, updating itself and the tables it was loaded from. Its
    subqueries on `user_tasks` are raw SQL, so unlike the relation loads they do not skip
    soft-deleted users: a `user_tasks` row counts whether or not its user still exists. */
module Models {
  import opened Common
  import opened Errors
  import opened Store
  import Service

  const AlreadyCompleted := Plain("task is already completed")
  const TaskNotFound := Plain("task not found")
  const NotAuthorizedToComplete := Plain("you are not authorized to complete this task")
  const TitleRequired := Plain("task title is required")
  const CreatorNotFound := Wrapped("creator user not found", NoRows)
  const LinkRefused := Wrapped("failed to insert user_task relation", DuplicateKey)
  const NotOwnTask := Plain("unauthorized: you can only delete your own tasks")
  const NilTask := Plain("task cannot be nil")
  const OnlyCreatorAssigns := Plain("unauthorized: only the task creator can assign users")
  const AlreadyAssigned := Plain("user is already assigned to this task")
  const AssigneeNotFound := Wrapped("assigned user not found", NoRows)
  const InvalidUserUuid := Plain("invalid user UUID")
  const AllFieldsRequired := Plain("all fields are required")
  /** `fmt.Errorf("error hashing password: %v", err)` over the hashing helper's own error. */
  const HashFailed := Plain("error hashing password: error hashing password")
  const EmailRegistered := Plain("email already registered")
  const InvalidCredentials := Plain("invalid email or password")

  /** The error for a listed user that does not exist. */
  function UnknownUser(u: Uuid): GoError {
    Wrapped("user with UUID " + UuidText(u) + " not found", NoRows)
  }

  // ---------------------------------------------------------------------------
  // The task operations, as functions of the store
  // ---------------------------------------------------------------------------

  /** Who may complete task `t` here: its creator, or anyone with a `user_tasks` row for it. */
  predicate MayComplete(db: Db, t: Uuid, u: Uuid)
    requires t in db.tasks
  {
    db.tasks[t].createdById == u || (t, u) in db.userTasks
  }

  /** `Task.Complete` on a receiver whose `Completed` flag is `receiverCompleted`: the flag
      is tested before the row is reloaded, and the full reloaded row is written back with
      `completed` set (its `updated_at` is not touched). */
  function CompleteOutcome(db: Db, receiverCompleted: bool, t: Uuid, u: Uuid): (e: Effect)
    ensures receiverCompleted ==> e == Effect(Some(AlreadyCompleted), db)
    ensures !receiverCompleted && t !in db.tasks ==> e == Effect(Some(TaskNotFound), db)
    ensures !receiverCompleted && t in db.tasks && !MayComplete(db, t, u) ==>
      e == Effect(Some(NotAuthorizedToComplete), db)
    ensures e.err.None? <==> !receiverCompleted && t in db.tasks && MayComplete(db, t, u)
    ensures e.err.None? ==> e.db == db.(tasks := db.tasks[t := db.tasks[t].(completed := true)])
    ensures CreatorsKept(db, e.db) && CompletionKept(db, e.db)
    ensures Wf(db) ==> Wf(e.db)
  {
    if receiverCompleted then Effect(Some(AlreadyCompleted), db)
    else if t !in db.tasks then Effect(Some(TaskNotFound), db)
    else if !MayComplete(db, t, u) then Effect(Some(NotAuthorizedToComplete), db)
    else Effect(None, db.(tasks := db.tasks[t := db.tasks[t].(completed := true)]))
  }

  /** The two implementations agree on who may complete a task while every linked user
      exists; a user whose account is gone but whose `user_tasks` row remains may still
      complete the task here, but not through `TaskService`. */
  lemma CompletionRightsCompared(db: Db, t: Uuid, u: Uuid)
    requires t in db.tasks
    ensures Service.MayModify(db, t, u) ==> MayComplete(db, t, u)
    ensures u in db.users ==> (Service.MayModify(db, t, u) <==> MayComplete(db, t, u))
    ensures (t, u) in db.userTasks && u !in db.users && db.tasks[t].createdById != u ==>
      MayComplete(db, t, u) && !Service.MayModify(db, t, u)
  {
  }

  /** `Task.ValidateAndCreateTask` for the task whose row would be `row` and whose
      `Users` list is `users`: title, then creator, then one transaction inserting the row
      and one `user_tasks` row per listed user, rolled back on the first failure. The
      primary pointer is stored as the receiver holds it. */
  function CreateOutcome(db: Db, row: TaskRow, users: seq<Uuid>): (e: Effect)
    requires FreshTask(db, row.uuid)
    ensures row.title == "" ==> e == Effect(Some(TitleRequired), db)
    ensures row.title != "" && row.createdById !in db.users ==> e == Effect(Some(CreatorNotFound), db)
    ensures e.err.Some? ==> e.db == db
    ensures Wf(db) ==> Wf(e.db)
  {
    if row.title == "" then Effect(Some(TitleRequired), db)
    else if row.createdById !in db.users then Effect(Some(CreatorNotFound), db)
    else
      match LinkUsers(db, row.uuid, users)
      case Failure(MissingUser(u)) => Effect(Some(UnknownUser(u)), db)
      case Failure(DuplicateLink(_)) => Effect(Some(LinkRefused), db)
      case Success(links) => Effect(None, Db(db.users, db.tasks[row.uuid := row], links))
  }

  /** Creation is all-or-nothing. It succeeds exactly when the title is non-empty, the
      creator exists, every listed user exists and none is listed twice. An unknown user
      is reported by its UUID; a repeated one trips the composite key. */
  lemma CreateOutcomeProps(db: Db, row: TaskRow, users: seq<Uuid>)
    requires FreshTask(db, row.uuid)
    ensures var e := CreateOutcome(db, row, users);
      && (e.err.None? <==>
           row.title != "" && row.createdById in db.users && (forall u | u in users :: u in db.users) && Distinct(users))
      && (e.err.None? ==> e.db.tasks == db.tasks[row.uuid := row] && e.db.users == db.users)
      && (e.err.None? ==> e.db.userTasks == db.userTasks + PairsOf(row.uuid, users))
      && (row.title != "" && row.createdById in db.users && e.err.Some? && Distinct(users) ==>
           exists u | u in users :: u !in db.users && e.err == Some(UnknownUser(u)))
      && (row.title != "" && row.createdById in db.users && (forall u | u in users :: u in db.users) && !Distinct(users) ==>
           e.err == Some(LinkRefused))
  {
    LinkUsersOutcome(db, row.uuid, users);
    LinkUsersFailureKind(db, row.uuid, users);
    LinkUsersFailureNames(db, row.uuid, users);
  }

  /** `Task.DeleteTask` by `u` on a receiver created by `owner`: only the owner may delete;
      a delete of a row that is already gone is not an error. */
  function DeleteOutcome(db: Db, t: Uuid, owner: Uuid, u: Uuid): (e: Effect)
    ensures e.err.None? <==> owner == u
    ensures e.err.Some? ==> e == Effect(Some(NotOwnTask), db)
    ensures e.err.None? ==> e.db == db.(tasks := db.tasks - {t})
    ensures Wf(db) ==> Wf(e.db)
  {
    if owner != u then Effect(Some(NotOwnTask), db)
    else Effect(None, db.(tasks := db.tasks - {t}))
  }

  /** `Task.ValidateAndAssignTask` on a non-nil receiver created by `owner`: creator check,
      then duplicate check on `user_tasks`, then the assignee lookup, then the pair and the
      primary pointer in one transaction. */
  function AssignOutcome(db: Db, t: Uuid, owner: Uuid, creator: Uuid, assignee: Uuid): (e: Effect)
    ensures owner != creator ==> e == Effect(Some(OnlyCreatorAssigns), db)
    ensures owner == creator && (t, assignee) in db.userTasks ==> e == Effect(Some(AlreadyAssigned), db)
    ensures owner == creator && (t, assignee) !in db.userTasks && assignee !in db.users ==>
      e == Effect(Some(AssigneeNotFound), db)
    ensures e.err.None? <==> owner == creator && (t, assignee) !in db.userTasks && assignee in db.users
    ensures e.err.None? ==> e.db.userTasks == db.userTasks + {(t, assignee)} && |e.db.userTasks| == |db.userTasks| + 1
    ensures e.err.None? && t in db.tasks ==> e.db.tasks == db.tasks[t := db.tasks[t].(assignedToId := Some(assignee))]
    ensures e.err.None? && t !in db.tasks ==> e.db.tasks == db.tasks
    ensures e.db.users == db.users
    ensures CreatorsKept(db, e.db) && CompletionKept(db, e.db)
    ensures Wf(db) ==> Wf(e.db)
  {
    if owner != creator then Effect(Some(OnlyCreatorAssigns), db)
    else if (t, assignee) in db.userTasks then Effect(Some(AlreadyAssigned), db)
    else if assignee !in db.users then Effect(Some(AssigneeNotFound), db)
    else
      var tasks := if t in db.tasks then db.tasks[t := db.tasks[t].(assignedToId := Some(assignee))] else db.tasks;
      Effect(None, Db(db.users, tasks, db.userTasks + {(t, assignee)}))
  }

  // ---------------------------------------------------------------------------
  // The active record
  // ---------------------------------------------------------------------------

  /** `models.Task`. `users` holds the UUIDs of its `Users` relation. */
  class Task {
    var uuid: Uuid
    var title: string
    var description: string
    var completed: bool
    var createdAt: Time
    var updatedAt: Time
    var createdById: Uuid
    var assignedToId: Option<Uuid>
    var users: seq<Uuid>

    /** `&models.Task{Title: title, Description: description}`: every other field is zero. */
    constructor (title: string, description: string)
      ensures this.title == title && this.description == description
      ensures uuid == NilUuid && !completed && createdAt == 0 && updatedAt == 0
      ensures createdById == NilUuid && assignedToId == None && users == []
    {
      this.title, this.description := title, description;
      uuid, completed, createdAt, updatedAt := NilUuid, false, 0, 0;
      createdById, assignedToId, users := NilUuid, None, [];
    }

    /** The row this record maps to. */
    function Row(): TaskRow
      reads this
    {
      TaskRow(uuid, title, description, completed, createdAt, updatedAt, createdById, assignedToId)
    }

    method Complete(db: Database, userId: Uuid) returns (err: Option<GoError>)
      requires db.Valid()
      modifies this, db
      ensures db.Valid()
      ensures Effect(err, db.State()) == CompleteOutcome(old(db.State()), old(completed), old(uuid), userId)
      ensures old(completed) || old(uuid) !in old(db.tasks) ==> unchanged(this)
      ensures !old(completed) && old(uuid) in old(db.tasks) ==>
        Row() == old(db.tasks[uuid]).(completed := old(db.tasks[uuid]).completed || err.None?)
      ensures !old(completed) && old(uuid) in old(db.tasks) ==>
        (forall u | u in users :: u in AssigneesOf(old(db.State()), uuid))
        && (forall u | u in AssigneesOf(old(db.State()), uuid) :: u in users)
    {
      if completed {
        return Some(AlreadyCompleted);
      }
      if uuid !in db.tasks {
        return Some(TaskNotFound);
      }
      var before := db.State();
      var row := before.tasks[uuid];
      var linked := Enumerate(AssigneesOf(before, uuid));
      title, description, completed := row.title, row.description, row.completed;
      createdAt, updatedAt, createdById, assignedToId := row.createdAt, row.updatedAt, row.createdById, row.assignedToId;
      users := linked;
      if createdById != userId && (uuid, userId) !in before.userTasks {
        return Some(NotAuthorizedToComplete);
      }
      completed := true;
      assert Row() == row.(completed := true);
      db.Commit(before.(tasks := before.tasks[uuid := Row()]));
      return None;
    }

    method ValidateAndCreateTask(db: Database, userId: Uuid, id: Uuid, now: Time) returns (err: Option<GoError>)
      requires FreshTask(db.State(), id)
      modifies this, db
      ensures Effect(err, db.State()) == CreateOutcome(old(db.State()),
        TaskRow(id, old(title), old(description), old(completed), now, now, userId, old(assignedToId)), old(users))
      ensures old(title) == "" ==> unchanged(this)
      ensures old(title) != "" ==> uuid == id && createdAt == now && updatedAt == now
      ensures old(title) != "" ==> createdById == if userId in old(db.users) then userId else old(createdById)
      ensures title == old(title) && description == old(description) && completed == old(completed)
      ensures assignedToId == old(assignedToId) && users == old(users)
    {
      if title == "" {
        return Some(TitleRequired);
      }
      uuid, createdAt, updatedAt := id, now, now;
      if userId !in db.users {
        return Some(CreatorNotFound);
      }
      createdById := userId;
      ghost var before := db.State();
      var row := Row();
      var tx := db.State().(tasks := db.tasks[uuid := row]);
      if |users| > 0 {
        var i := 0;
        while i < |users|
          invariant 0 <= i <= |users|
          invariant tx.users == before.users && tx.tasks == before.tasks[id := row]
          invariant LinkUsers(before, id, users[..i]) == Success(tx.userTasks)
        {
          var u := users[i];
          assert users[..i + 1][..i] == users[..i];
          if u !in tx.users {
            LinkUsersPrefixFailure(before, id, users, i + 1);
            return Some(UnknownUser(u));
          }
          if (id, u) in tx.userTasks {
            LinkUsersPrefixFailure(before, id, users, i + 1);
            return Some(LinkRefused);
          }
          tx := tx.(userTasks := tx.userTasks + {(id, u)});
          i := i + 1;
        }
        assert users[..i] == users;
      }
      db.Commit(tx);
      return None;
    }

    method DeleteTask(db: Database, userId: Uuid) returns (err: Option<GoError>)
      modifies db
      ensures Effect(err, db.State()) == DeleteOutcome(old(db.State()), uuid, createdById, userId)
    {
      if createdById != userId {
        return Some(NotOwnTask);
      }
      db.Commit(db.State().(tasks := db.tasks - {uuid}));
      return None;
    }
  }

  /** `ValidateAndAssignTask`, whose receiver may be nil. On success the receiver's primary
      pointer is the assignee; nothing else of the receiver changes. */
  method ValidateAndAssignTask(task: Task?, db: Database, creator: Uuid, assignee: Uuid) returns (err: Option<GoError>)
    modifies task, db
    ensures task == null ==> err == Some(NilTask) && db.State() == old(db.State())
    ensures task != null ==>
      Effect(err, db.State()) == AssignOutcome(old(db.State()), task.uuid, old(task.createdById), creator, assignee)
    ensures task != null ==> task.assignedToId == if err.None? then Some(assignee) else old(task.assignedToId)
    ensures task != null ==> task.Row().(assignedToId := None) == old(task.Row()).(assignedToId := None)
    ensures task != null ==> task.users == old(task.users)
  {
    if task == null {
      return Some(NilTask);
    }
    if task.createdById != creator {
      return Some(OnlyCreatorAssigns);
    }
    if (task.uuid, assignee) in db.userTasks {
      return Some(AlreadyAssigned);
    }
    if assignee !in db.users {
      return Some(AssigneeNotFound);
    }
    var tx := db.State().(userTasks := db.userTasks + {(task.uuid, assignee)});
    task.assignedToId := Some(assignee);
    if task.uuid in tx.tasks {
      tx := tx.(tasks := tx.tasks[task.uuid := tx.tasks[task.uuid].(assignedToId := Some(assignee))]);
    }
    db.Commit(tx);
    return None;
  }

  /** `GetUserTasks`: the nil UUID is refused; otherwise the tasks the user created, newest
      first, as a list that is never nil. */
  method GetUserTasks(db: Database, userId: Uuid) returns (r: Result<seq<TaskRow>, GoError>)
    requires db.Valid()
    ensures userId == NilUuid ==> r == Failure(InvalidUserUuid)
    ensures userId != NilUuid ==> r.Success? && IsSelection(db.State(), CreatedBy(userId), r.value)
  {
    if userId == NilUuid {
      return Failure(InvalidUserUuid);
    }
    var rows := db.Select(CreatedBy(userId));
    return Success(rows);
  }

  /** `GetTasksAssignedToUser`: the nil UUID is refused; otherwise the tasks whose primary
      pointer is the user, newest first, as a list that is never nil. */
  method GetTasksAssignedToUser(db: Database, userId: Uuid) returns (r: Result<seq<TaskRow>, GoError>)
    requires db.Valid()
    ensures userId == NilUuid ==> r == Failure(InvalidUserUuid)
    ensures userId != NilUuid ==> r.Success? && IsSelection(db.State(), AssignedTo(userId), r.value)
  {
    if userId == NilUuid {
      return Failure(InvalidUserUuid);
    }
    var rows := db.Select(AssignedTo(userId));
    return Success(rows);
  }

  // ---------------------------------------------------------------------------
  // Users
  // ---------------------------------------------------------------------------

  /** `User.CreateUser` as a function of the store; `hash` is the bcrypt helper (None
      when it fails). Empty fields are refused before hashing, and a taken email before
      the insert. */
  function CreateUserOutcome(db: Db, name: string, email: string, password: string, id: Uuid, now: Time,
                             hash: string -> Option<string>): (e: Effect)
    requires id !in db.users
    ensures name == "" || email == "" || password == "" ==> e == Effect(Some(AllFieldsRequired), db)
    ensures e.err.None? <==>
      name != "" && email != "" && password != "" && hash(password).Some? && !EmailTaken(db.users, email)
    ensures name != "" && email != "" && password != "" && hash(password).None? ==> e == Effect(Some(HashFailed), db)
    ensures name != "" && email != "" && password != "" && hash(password).Some? && EmailTaken(db.users, email) ==>
      e == Effect(Some(EmailRegistered), db)
    ensures e.err.Some? ==> e.db == db
    ensures e.err.None? ==> e.db == db.(users := db.users[id := UserRow(id, name, email, hash(password).value, now, now)])
    ensures Wf(db) ==> Wf(e.db)
  {
    if name == "" || email == "" || password == "" then Effect(Some(AllFieldsRequired), db)
    else if hash(password).None? then Effect(Some(HashFailed), db)
    else if EmailTaken(db.users, email) then Effect(Some(EmailRegistered), db)
    else Effect(None, db.(users := db.users[id := UserRow(id, name, email, hash(password).value, now, now)]))
  }

  /** `CreateUser`: `id` is the freshly generated UUID. The new user is returned as stored. */
  method CreateUser(db: Database, name: string, email: string, password: string, id: Uuid, now: Time,
                    hash: string -> Option<string>) returns (r: Result<UserRow, GoError>)
    requires id !in db.users
    modifies db
    ensures r.Failure? ==> Effect(Some(r.error), db.State()) == CreateUserOutcome(old(db.State()), name, email, password, id, now, hash)
    ensures r.Success? ==> Effect(None, db.State()) == CreateUserOutcome(old(db.State()), name, email, password, id, now, hash)
    ensures r.Success? ==> r.value == db.users[id]
  {
    if name == "" || email == "" || password == "" {
      return Failure(AllFieldsRequired);
    }
    var hashed := hash(password);
    if hashed.None? {
      return Failure(HashFailed);
    }
    var user := UserRow(id, name, email, hashed.value, now, now);
    if EmailTaken(db.users, email) {
      return Failure(EmailRegistered);
    }
    db.Commit(db.State().(users := db.users[id := user]));
    return Success(user);
  }

  /** `GetUserByEmail`: the one user holding `email`, or the login error. */
  method GetUserByEmail(db: Database, email: string) returns (r: Result<UserRow, GoError>)
    requires db.Valid()
    ensures !EmailTaken(db.users, email) ==> r == Failure(InvalidCredentials)
    ensures EmailTaken(db.users, email) ==> r.Success? && EmailOwner(db.users, email) == Some(r.value.uuid)
    ensures r.Success? ==> r.value.uuid in db.users && db.users[r.value.uuid] == r.value && r.value.email == email
  {
    if !EmailTaken(db.users, email) {
      return Failure(InvalidCredentials);
    }
    var v :| v in db.users && db.users[v].email == email;
    return Success(db.users[v]);
  }
}
