/** The domain services of the layered implementation
    (internal/domain/service/task_service.go and user_service.go): the authorization
    guards, in the order the code checks them, in front of the repository writes. */
module Service {
  import opened Common
  import opened Errors
  import opened Store
  import opened Repository
  import Entity

  const TaskNotFound := Plain("task not found")
  const CreatorNotFound := Plain("creator not found")
  const UserNotFound := Plain("user not found")
  const OnlyCreatorAssigns := Plain("only the task creator can assign users")
  const NotAuthorizedToComplete := Plain("you are not authorized to complete this task")
  const OnlyCreatorDeletes := Plain("only the task creator can delete the task")
  const EmailRegistered := Plain("email already registered")
  const EmailRegisteredByOther := Plain("email already registered by another user")

  /** Who may complete task `t`: its creator and every existing user linked to it. */
  predicate MayModify(db: Db, t: Uuid, u: Uuid)
    requires t in db.tasks
  {
    db.tasks[t].createdById == u || u in AssigneesOf(db, t)
  }

  // ---------------------------------------------------------------------------
  // TaskService, as functions of the store
  // ---------------------------------------------------------------------------

  /** `CreateTask`: an unknown creator is refused before anything is written. */
  function CreateTaskOutcome(db: Db, row: TaskRow, userIds: seq<Uuid>, primary: Option<Uuid>): (e: Effect)
    requires FreshTask(db, row.uuid)
    ensures row.createdById !in db.users ==> e.err == Some(CreatorNotFound)
    ensures e.err.None? <==>
      row.createdById in db.users && (forall u | u in userIds :: u in db.users) && Distinct(userIds)
    ensures e.err.Some? ==> e.db == db
    ensures e.err.None? ==> e.db.tasks.Keys == db.tasks.Keys + {row.uuid}
    ensures e.err.None? ==> e.db.tasks[row.uuid].createdById == row.createdById
    ensures e.err.None? ==> e.db.userTasks == db.userTasks + PairsOf(row.uuid, userIds)
    ensures Wf(db) ==> Wf(e.db)
  {
    if row.createdById !in db.users then Effect(Some(CreatorNotFound), db)
    else CreateEffect(db, row, userIds, primary)
  }

  /** `AssignTask`: the task must exist, the requestor must be its creator (checked
      before the user is even looked up), and the user must exist. */
  function AssignTaskOutcome(db: Db, t: Uuid, u: Uuid, requestor: Uuid): (e: Effect)
    ensures t !in db.tasks ==> e.err == Some(TaskNotFound)
    ensures t in db.tasks && db.tasks[t].createdById != requestor ==> e.err == Some(OnlyCreatorAssigns)
    ensures t in db.tasks && db.tasks[t].createdById == requestor && u !in db.users ==> e.err == Some(UserNotFound)
    ensures e.err.None? <==> t in db.tasks && db.tasks[t].createdById == requestor && u in db.users
    ensures e.err.Some? ==> e.db == db
    ensures e.err.None? ==> e.db.userTasks == db.userTasks + {(t, u)} && e.db.users == db.users
    ensures e.err.None? ==> e.db.tasks == db.tasks[t := db.tasks[t].(assignedToId := Some(u))]
    ensures CreatorsKept(db, e.db) && CompletionKept(db, e.db)
    ensures Wf(db) ==> Wf(e.db)
  {
    if t !in db.tasks then Effect(Some(TaskNotFound), db)
    else if db.tasks[t].createdById != requestor then Effect(Some(OnlyCreatorAssigns), db)
    else if u !in db.users then Effect(Some(UserNotFound), db)
    else AssignEffect(db, t, u)
  }

  /** `CompleteTask`: authorization is checked before the completion flag, so an
      outsider is told they are not authorized even when the task is already done. */
  function CompleteTaskOutcome(db: Db, t: Uuid, u: Uuid, now: Time): (e: Effect)
    ensures t !in db.tasks ==> e.err == Some(TaskNotFound)
    ensures t in db.tasks && !MayModify(db, t, u) ==> e.err == Some(NotAuthorizedToComplete)
    ensures t in db.tasks && MayModify(db, t, u) && db.tasks[t].completed ==> e.err == Some(AlreadyCompleted)
    ensures e.err.None? <==> t in db.tasks && MayModify(db, t, u) && !db.tasks[t].completed
    ensures e.err.Some? ==> e.db == db
    ensures e.err.None? ==> e.db == db.(tasks := db.tasks[t := db.tasks[t].(completed := true, updatedAt := now)])
    ensures CreatorsKept(db, e.db) && CompletionKept(db, e.db)
    ensures Wf(db) ==> Wf(e.db)
  {
    if t !in db.tasks then Effect(Some(TaskNotFound), db)
    else if !MayModify(db, t, u) then Effect(Some(NotAuthorizedToComplete), db)
    else if db.tasks[t].completed then Effect(Some(AlreadyCompleted), db)
    else
      var row := db.tasks[t];
      UpdateEffect(db, t, row.title, row.description, true, now, row.assignedToId)
  }

  /** `DeleteTask`: only the creator may delete; anyone else leaves the task in place. */
  function DeleteTaskOutcome(db: Db, t: Uuid, u: Uuid): (e: Effect)
    ensures t !in db.tasks ==> e.err == Some(TaskNotFound)
    ensures t in db.tasks && db.tasks[t].createdById != u ==> e.err == Some(OnlyCreatorDeletes) && t in e.db.tasks
    ensures e.err.None? <==> t in db.tasks && db.tasks[t].createdById == u
    ensures e.err.Some? ==> e.db == db
    ensures e.err.None? ==> e.db == db.(tasks := db.tasks - {t})
    ensures Wf(db) ==> Wf(e.db)
  {
    if t !in db.tasks then Effect(Some(TaskNotFound), db)
    else if db.tasks[t].createdById != u then Effect(Some(OnlyCreatorDeletes), db)
    else DeleteEffect(db, t)
  }

  // ---------------------------------------------------------------------------
  // UserService, as functions of the store
  // ---------------------------------------------------------------------------

  /** `CreateUser`: an email already in use is refused by the pre-check, so the unique
      index on `email` is never the one that refuses. */
  function CreateUserOutcome(db: Db, row: UserRow): (e: Effect)
    requires row.uuid !in db.users
    ensures e.err.None? <==> !EmailTaken(db.users, row.email)
    ensures e.err.Some? ==> e.err == Some(EmailRegistered) && e.db == db
    ensures e.err.None? ==> e.db == db.(users := db.users[row.uuid := row])
    ensures Wf(db) ==> Wf(e.db)
  {
    if EmailTaken(db.users, row.email) then Effect(Some(EmailRegistered), db)
    else InsertUserEffect(db, row)
  }

  /** `UpdateUser`: an unknown user is refused; a non-empty email held by a different
      user is refused; keeping one's own email is allowed. */
  function UpdateUserOutcome(db: Db, id: Uuid, name: string, email: string, password: string,
                            updatedAt: Time): (e: Effect)
    requires Wf(db)
    ensures id !in db.users ==> e.err == Some(UserNotFound)
    ensures id in db.users && email != "" && EmailTaken(db.users, email) && db.users[id].email != email ==>
      e.err == Some(EmailRegisteredByOther)
    ensures id in db.users && email != "" ==> (e.err.None? <==> !EmailTaken(db.users, email) || db.users[id].email == email)
    ensures e.err.Some? ==> e.db == db
    ensures e.err.None? ==> e.db == db.(users := db.users[id := db.users[id].(name := name, email := email,
      password := password, updatedAt := updatedAt)])
    ensures Wf(e.db)
  {
    if id !in db.users then Effect(Some(UserNotFound), db)
    else if email != "" && EmailTaken(db.users, email) && db.users[id].email != email then
      Effect(Some(EmailRegisteredByOther), db)
    else Repository.UpdateUserEffect(db, id, name, email, password, updatedAt)
  }

  /** `DeleteUser`: an unknown user is refused and nothing is deleted. */
  function DeleteUserOutcome(db: Db, id: Uuid): (e: Effect)
    ensures e.err.None? <==> id in db.users
    ensures e.err.Some? ==> e.err == Some(UserNotFound) && e.db == db
    ensures e.err.None? ==> e.db == db.(users := db.users - {id})
    ensures Wf(db) ==> Wf(e.db)
  {
    if id !in db.users then Effect(Some(UserNotFound), db)
    else Repository.DeleteUserEffect(db, id)
  }

  // ---------------------------------------------------------------------------
  // The services
  // ---------------------------------------------------------------------------

  class TaskService {
    const taskRepo: TaskRepository
    const userRepo: UserRepository

    /** Both repositories work on the same database. */
    predicate Valid() {
      taskRepo.db == userRepo.db
    }

    constructor (taskRepo: TaskRepository, userRepo: UserRepository)
      requires taskRepo.db == userRepo.db
      ensures this.taskRepo == taskRepo && this.userRepo == userRepo && Valid()
    {
      this.taskRepo, this.userRepo := taskRepo, userRepo;
    }

    method CreateTask(task: Entity.Task, now: Time) returns (err: Option<GoError>)
      requires Valid() && taskRepo.db.Valid() && FreshTask(taskRepo.db.State(), task.uuid)
      modifies task`createdBy, taskRepo.db
      ensures taskRepo.db.Valid()
      ensures Effect(err, taskRepo.db.State()) == CreateTaskOutcome(old(taskRepo.db.State()),
        old(InsertedRow(task, now)), old(Entity.Ids(task.users)), old(task.assignedToId))
    {
      var creator := userRepo.GetByUUID(task.createdById);
      if creator.Failure? {
        return Some(CreatorNotFound);
      }
      task.createdBy := creator.value;
      err := taskRepo.Create(task, now);
    }

    method GetTaskByUUID(t: Uuid) returns (r: Result<Entity.Task, GoError>)
      requires taskRepo.db.Valid()
      ensures t !in taskRepo.db.tasks ==> r.Failure? && r.error == NoRows
      ensures t in taskRepo.db.tasks ==> r.Success? && fresh(r.value)
      ensures r.Success? ==> Mirrors(r.value, taskRepo.db.tasks[t], taskRepo.db.State())
    {
      r := taskRepo.GetByUUID(t);
    }

    method AssignTask(t: Uuid, u: Uuid, requestor: Uuid) returns (err: Option<GoError>)
      requires Valid() && taskRepo.db.Valid()
      modifies taskRepo.db
      ensures taskRepo.db.Valid()
      ensures Effect(err, taskRepo.db.State()) == AssignTaskOutcome(old(taskRepo.db.State()), t, u, requestor)
    {
      var task := taskRepo.GetByUUID(t);
      if task.Failure? {
        return Some(TaskNotFound);
      }
      if task.value.createdById != requestor {
        return Some(OnlyCreatorAssigns);
      }
      var user := userRepo.GetByUUID(u);
      if user.Failure? {
        return Some(UserNotFound);
      }
      err := taskRepo.AssignTaskToUser(t, u);
    }

    method CompleteTask(t: Uuid, u: Uuid, now: Time) returns (err: Option<GoError>)
      requires taskRepo.db.Valid()
      modifies taskRepo.db
      ensures taskRepo.db.Valid()
      ensures Effect(err, taskRepo.db.State()) == CompleteTaskOutcome(old(taskRepo.db.State()), t, u, now)
    {
      var found := taskRepo.GetByUUID(t);
      if found.Failure? {
        return Some(TaskNotFound);
      }
      var task := found.value;
      assert u in Entity.Ids(task.users) <==> u in AssigneesOf(taskRepo.db.State(), t);
      var allowed := task.CanBeModifiedBy(u);
      if !allowed {
        return Some(NotAuthorizedToComplete);
      }
      err := task.Complete(now);
      if err.Some? {
        return;
      }
      err := taskRepo.Update(task);
    }

    method DeleteTask(t: Uuid, u: Uuid) returns (err: Option<GoError>)
      requires taskRepo.db.Valid()
      modifies taskRepo.db
      ensures taskRepo.db.Valid()
      ensures Effect(err, taskRepo.db.State()) == DeleteTaskOutcome(old(taskRepo.db.State()), t, u)
    {
      var task := taskRepo.GetByUUID(t);
      if task.Failure? {
        return Some(TaskNotFound);
      }
      if task.value.createdById != u {
        return Some(OnlyCreatorDeletes);
      }
      err := taskRepo.Delete(t);
    }
  }

  class UserService {
    const userRepo: UserRepository

    constructor (userRepo: UserRepository)
      ensures this.userRepo == userRepo
    {
      this.userRepo := userRepo;
    }

    method CreateUser(user: Entity.User, now: Time) returns (err: Option<GoError>)
      requires userRepo.db.Valid() && user.uuid !in userRepo.db.users
      modifies userRepo.db
      ensures userRepo.db.Valid()
      ensures Effect(err, userRepo.db.State()) == CreateUserOutcome(old(userRepo.db.State()), InsertedUser(user, now))
    {
      var taken := userRepo.EmailExists(user.email);
      if taken {
        return Some(EmailRegistered);
      }
      err := userRepo.Create(user, now);
    }

    method GetUserByEmail(email: string) returns (r: Result<Entity.User, GoError>)
      ensures !EmailTaken(userRepo.db.users, email) ==> r.Failure? && r.error == NoRows
      ensures EmailTaken(userRepo.db.users, email) ==> r.Success? && fresh(r.value)
      ensures r.Success? ==> exists v | v in userRepo.db.users ::
        userRepo.db.users[v].email == email && MirrorsUser(r.value, userRepo.db.users[v])
    {
      r := userRepo.GetByEmail(email);
    }

    method GetUserByUUID(id: Uuid) returns (r: Result<Entity.User, GoError>)
      ensures id !in userRepo.db.users ==> r.Failure? && r.error == NoRows
      ensures id in userRepo.db.users ==> r.Success? && fresh(r.value) && MirrorsUser(r.value, userRepo.db.users[id])
    {
      r := userRepo.GetByUUID(id);
    }

    method UpdateUser(user: Entity.User) returns (err: Option<GoError>)
      requires userRepo.db.Valid()
      modifies userRepo.db
      ensures userRepo.db.Valid()
      ensures Effect(err, userRepo.db.State()) == UpdateUserOutcome(old(userRepo.db.State()), user.uuid,
        user.name, user.email, user.password, user.updatedAt)
    {
      var existing := userRepo.GetByUUID(user.uuid);
      if existing.Failure? {
        return Some(UserNotFound);
      }
      if user.email != "" {
        var holder := userRepo.GetByEmail(user.email);
        if holder.Success? && holder.value.uuid != user.uuid {
          return Some(EmailRegisteredByOther);
        }
      }
      err := userRepo.Update(user);
    }

    method DeleteUser(id: Uuid) returns (err: Option<GoError>)
      requires userRepo.db.Valid()
      modifies userRepo.db
      ensures userRepo.db.Valid()
      ensures Effect(err, userRepo.db.State()) == DeleteUserOutcome(old(userRepo.db.State()), id)
    {
      var existing := userRepo.GetByUUID(id);
      if existing.Failure? {
        return Some(UserNotFound);
      }
      err := userRepo.Delete(id);
    }
  }
}
