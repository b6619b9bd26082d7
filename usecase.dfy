/** The application use cases of the layered implementation (internal/app/usecase):
    task creation with assignee screening, completion and assignment with a re-fetch,
    and user registration, login and profile update over opaque password and token
    functions. */
module UseCase {
  import opened Common
  import opened Errors
  import opened Store
  import Entity
  import Repository
  import Service
  import Presenter

  const TitleRequired := Plain("task title is required")
  const Unassignable := "some users could not be assigned to the task: "
  const InvalidCredentials := Plain("invalid email or password")

  // ---------------------------------------------------------------------------
  // Screening the requested assignees
  // ---------------------------------------------------------------------------

  /** The requested assignee ids sorted into complaints and accepted UUIDs. */
  datatype Screened = Screened(invalid: seq<string>, valid: seq<Uuid>)

  /** A requested id that parses and names an existing user. */
  predicate Resolves(users: map<Uuid, UserRow>, parse: string -> Option<Uuid>, s: string) {
    parse(s).Some? && parse(s).value in users
  }

  /** The complaint recorded for a requested id that does not resolve. */
  function Complaint(parse: string -> Option<Uuid>, s: string): string {
    if parse(s).None? then s + " (invalid format)" else s + " (not found)"
  }

  /** The screening loop of `CreateTask`: every id is examined, in request order;
      `parse` is `uuid.Parse`. */
  function Screen(users: map<Uuid, UserRow>, parse: string -> Option<Uuid>, requested: seq<string>): (c: Screened)
    ensures |c.invalid| + |c.valid| == |requested|
    ensures forall u | u in c.valid :: u in users
    decreases |requested|
  {
    if requested == [] then Screened([], [])
    else
      var c := Screen(users, parse, requested[..|requested| - 1]);
      var s := requested[|requested| - 1];
      match parse(s)
      case None => c.(invalid := c.invalid + [s + " (invalid format)"])
      case Some(u) =>
        if u !in users then c.(invalid := c.invalid + [s + " (not found)"])
        else c.(valid := c.valid + [u])
  }

  /** Screening is not fail-fast: every id that does not resolve gets its complaint, and
      when none is refused the accepted UUIDs are the parsed ids, in request order. */
  lemma {:induction false} ScreenOutcome(users: map<Uuid, UserRow>, parse: string -> Option<Uuid>, requested: seq<string>)
    ensures Screen(users, parse, requested).invalid == [] <==> forall s | s in requested :: Resolves(users, parse, s)
    ensures forall i | 0 <= i < |requested| && !Resolves(users, parse, requested[i]) ::
      Complaint(parse, requested[i]) in Screen(users, parse, requested).invalid
    ensures Screen(users, parse, requested).invalid == [] ==>
      var valid := Screen(users, parse, requested).valid;
      |valid| == |requested| && forall i | 0 <= i < |requested| :: Some(valid[i]) == parse(requested[i])
    decreases |requested|
  {
    if requested != [] {
      var init, s := requested[..|requested| - 1], requested[|requested| - 1];
      assert requested == init + [s];
      ScreenOutcome(users, parse, init);
      var c := Screen(users, parse, init);
      var c' := Screen(users, parse, requested);
      forall i | 0 <= i < |requested| && !Resolves(users, parse, requested[i])
        ensures Complaint(parse, requested[i]) in c'.invalid
      {
        if i < |init| {
          assert init[i] == requested[i];
          assert c.invalid <= c'.invalid;
        }
      }
      if c'.invalid == [] {
        assert c.invalid == [] && Resolves(users, parse, s);
        forall i | 0 <= i < |requested| ensures Some(c'.valid[i]) == parse(requested[i]) {
          if i < |init| {
            assert init[i] == requested[i];
          }
        }
      }
      if forall x | x in requested :: Resolves(users, parse, x) {
        assert forall x | x in init :: x in requested;
        assert s in requested;
      }
    }
  }

  // ---------------------------------------------------------------------------
  // Assigning the accepted users one by one
  // ---------------------------------------------------------------------------

  /** The assignment loop of `CreateTask`: `TaskService.AssignTask` for each user in
      order, the creator as requestor; the first failure stops it, wrapped. */
  function AssignAll(db: Db, t: Uuid, us: seq<Uuid>, requestor: Uuid): (e: Effect)
    ensures e.db.users == db.users
    decreases |us|
  {
    if us == [] then Effect(None, db)
    else
      var e := AssignAll(db, t, us[..|us| - 1], requestor);
      if e.err.Some? then e
      else
        var u := us[|us| - 1];
        var a := Service.AssignTaskOutcome(e.db, t, u, requestor);
        if a.err.Some? then Effect(Some(Wrapped("failed to assign task to user " + UuidText(u), a.err.value)), a.db)
        else a
  }

  /** With the creator as requestor and every user existing, no assignment fails: each
      listed user gets its pair once (a repeated user adds nothing), and the primary
      pointer ends at the last user listed. */
  lemma {:induction false} AssignAllOutcome(db: Db, t: Uuid, us: seq<Uuid>, requestor: Uuid)
    requires t in db.tasks && db.tasks[t].createdById == requestor
    requires forall u | u in us :: u in db.users
    ensures AssignAll(db, t, us, requestor).err.None?
    ensures var after := AssignAll(db, t, us, requestor).db;
      && after.tasks.Keys == db.tasks.Keys
      && after.userTasks == db.userTasks + PairsOf(t, us)
      && (forall x | x in db.tasks && x != t :: after.tasks[x] == db.tasks[x])
      && (us == [] ==> after.tasks[t] == db.tasks[t])
      && (us != [] ==> after.tasks[t] == db.tasks[t].(assignedToId := Some(us[|us| - 1])))
    decreases |us|
  {
    if us != [] {
      var init, u := us[..|us| - 1], us[|us| - 1];
      assert us == init + [u];
      assert forall v | v in init :: v in us;
      AssignAllOutcome(db, t, init, requestor);
      PairsOfSnoc(t, init, u);
      AssignAllSnoc(db, t, init, u, requestor);
      var e := AssignAll(db, t, init, requestor).db;
      assert e.tasks[t].(assignedToId := Some(u)) == db.tasks[t].(assignedToId := Some(u));
    }
  }

  /** The loop over `init + [u]`: the loop over `init`, then one more assignment. */
  lemma AssignAllSnoc(db: Db, t: Uuid, init: seq<Uuid>, u: Uuid, requestor: Uuid)
    requires AssignAll(db, t, init, requestor).err.None?
    ensures var a := Service.AssignTaskOutcome(AssignAll(db, t, init, requestor).db, t, u, requestor);
      AssignAll(db, t, init + [u], requestor)
      == if a.err.Some? then Effect(Some(Wrapped("failed to assign task to user " + UuidText(u), a.err.value)), a.db)
         else a
  {
    assert (init + [u])[..|init|] == init;
  }

  /** Once a prefix of the users fails, the whole loop fails the same way. */
  lemma {:induction false} AssignAllPrefixFailure(db: Db, t: Uuid, us: seq<Uuid>, requestor: Uuid, k: nat)
    requires k <= |us| && AssignAll(db, t, us[..k], requestor).err.Some?
    ensures AssignAll(db, t, us, requestor) == AssignAll(db, t, us[..k], requestor)
    decreases |us| - k
  {
    if k < |us| {
      var longer := us[..k + 1];
      assert longer[..|longer| - 1] == us[..k];
      AssignAllPrefixFailure(db, t, us, requestor, k + 1);
    } else {
      assert us[..k] == us;
    }
  }

  // ---------------------------------------------------------------------------
  // TaskUseCase.CreateTask
  // ---------------------------------------------------------------------------

  /** The row a task created by `CreateTask` is stored as. */
  function NewRow(id: Uuid, title: string, description: string, creator: Uuid, now: Time): TaskRow {
    TaskRow(id, title, description, false, now, now, creator, None)
  }

  /** `TaskUseCase.CreateTask` as a function of the store: the task is persisted first,
      then the requested assignees are screened, then assigned. */
  function CreateTaskFlow(db: Db, title: string, description: string, creator: Uuid,
                          requested: seq<string>, parse: string -> Option<Uuid>, id: Uuid, now: Time): (e: Effect)
    requires FreshTask(db, id)
    ensures title == "" ==> e == Effect(Some(TitleRequired), db)
    ensures title != "" && creator !in db.users ==> e == Effect(Some(Service.CreatorNotFound), db)
    ensures e.db.users == db.users
  {
    if title == "" then Effect(Some(TitleRequired), db)
    else
      var created := Service.CreateTaskOutcome(db, NewRow(id, title, description, creator, now), [], None);
      if created.err.Some? || requested == [] then created
      else
        var c := Screen(created.db.users, parse, requested);
        if c.invalid != [] then Effect(Some(Plain(Unassignable + Join(c.invalid, ", "))), created.db)
        else AssignAll(created.db, id, c.valid, creator)
  }

  /** The pairs linking task `id` to every requested id that parses. */
  function RequestedPairs(id: Uuid, requested: seq<string>, parse: string -> Option<Uuid>): set<Assignment> {
    set s | s in requested && parse(s).Some? :: (id, parse(s).value)
  }

  /** Linking the parsed ids one by one yields the pairs of the requested ids. */
  lemma {:induction false} ParsedPairs(id: Uuid, requested: seq<string>, parse: string -> Option<Uuid>, valid: seq<Uuid>)
    requires |valid| == |requested| && forall i | 0 <= i < |requested| :: Some(valid[i]) == parse(requested[i])
    ensures PairsOf(id, valid) == RequestedPairs(id, requested, parse)
  {
    forall u | u in valid ensures (id, u) in RequestedPairs(id, requested, parse) {
      var i :| 0 <= i < |valid| && valid[i] == u;
      assert requested[i] in requested;
    }
    forall s | s in requested && parse(s).Some? ensures (id, parse(s).value) in PairsOf(id, valid) {
      var i :| 0 <= i < |requested| && requested[i] == s;
      assert valid[i] in valid;
    }
  }

  /** A task with no listed users and an existing creator is stored as given. */
  lemma CreatedAlone(db: Db, row: TaskRow)
    requires FreshTask(db, row.uuid) && row.createdById in db.users
    ensures Service.CreateTaskOutcome(db, row, [], None) == Effect(None, db.(tasks := db.tasks[row.uuid := row]))
  {
    assert (set u: Uuid | u in [] :: (row.uuid, u)) == {};
  }

  /** What creating a task leaves behind. It succeeds exactly when the title is non-empty,
      the creator exists and every requested id names an existing user. Once the title and
      creator pass, the task stays stored even when an assignee is refused. On success
      every requested user is linked once and the primary pointer is the last one. */
  lemma CreateTaskFlowOutcome(db: Db, title: string, description: string, creator: Uuid,
                              requested: seq<string>, parse: string -> Option<Uuid>, id: Uuid, now: Time)
    requires FreshTask(db, id)
    ensures var e := CreateTaskFlow(db, title, description, creator, requested, parse, id, now);
      && (e.err.None? <==>
           title != "" && creator in db.users && forall s | s in requested :: Resolves(db.users, parse, s))
      && (title != "" && creator in db.users ==>
           id in e.db.tasks && e.db.tasks[id].(assignedToId := None) == NewRow(id, title, description, creator, now)
           && e.db.tasks.Keys == db.tasks.Keys + {id}
           && (forall x | x in db.tasks :: e.db.tasks[x] == db.tasks[x]))
      && (e.err.Some? ==> e.db.userTasks == db.userTasks)
      && (e.err.None? ==> e.db.userTasks == db.userTasks + RequestedPairs(id, requested, parse))
      && (e.err.None? && requested == [] ==> e.db.tasks[id].assignedToId == None)
      && (e.err.None? && requested != [] ==>
           Some(e.db.tasks[id].assignedToId.value) == parse(requested[|requested| - 1]))
  {
    if title != "" && creator in db.users {
      var row := NewRow(id, title, description, creator, now);
      CreatedAlone(db, row);
      var created := db.(tasks := db.tasks[id := row]);
      if requested == [] {
        assert RequestedPairs(id, requested, parse) == {};
      } else {
        ScreenOutcome(db.users, parse, requested);
        var c := Screen(db.users, parse, requested);
        if c.invalid == [] {
          AssignAllOutcome(created, id, c.valid, creator);
          ParsedPairs(id, requested, parse, c.valid);
        }
      }
    }
  }

  class TaskUseCase {
    const taskService: Service.TaskService
    const userService: Service.UserService
    /** The database both services work on. */
    ghost const db: Database

    ghost predicate Valid() {
      && taskService.Valid()
      && taskService.taskRepo.db == db && userService.userRepo.db == db
    }

    constructor (taskService: Service.TaskService, userService: Service.UserService)
      requires taskService.Valid() && userService.userRepo.db == taskService.taskRepo.db
      ensures this.taskService == taskService && this.userService == userService && Valid()
    {
      this.taskService, this.userService := taskService, userService;
      this.db := taskService.taskRepo.db;
    }

    /** `CreateTask`. The created task is presented with the users it ended up linked to. */
    method CreateTask(title: string, description: string, creator: Uuid, requested: seq<string>,
                      parse: string -> Option<Uuid>, id: Uuid, now: Time)
      returns (r: Option<Presenter.TaskResponse>, err: Option<GoError>)
      requires Valid() && db.Valid() && FreshTask(db.State(), id)
      modifies db
      ensures db.Valid()
      ensures Effect(err, db.State()) ==
        CreateTaskFlow(old(db.State()), title, description, creator, requested, parse, id, now)
      ensures err.None? <==> r.Some?
      ensures r.Some? ==> r.value.id == id && r.value.title == title && r.value.description == description
      ensures r.Some? ==> !r.value.completed && r.value.createdBy.id == creator
      ensures r.Some? ==> forall s | s in r.value.users :: s.id in AssigneesOf(db.State(), id)
      ensures r.Some? ==> forall u | u in AssigneesOf(db.State(), id) :: exists s | s in r.value.users :: s.id == u
    {
      ghost var before := db.State();
      err := CreateAndAssign(title, description, creator, requested, parse, id, now);
      if err.Some? {
        return None, err;
      }
      CreateTaskFlowOutcome(before, title, description, creator, requested, parse, id, now);
      r, err := GetTaskByUUID(id);
    }

    /** The writing part of `CreateTask`: the entity, the service's creation, the
        screening of the requested ids and the assignment loop. */
    method CreateAndAssign(title: string, description: string, creator: Uuid, requested: seq<string>,
                           parse: string -> Option<Uuid>, id: Uuid, now: Time) returns (err: Option<GoError>)
      requires Valid() && db.Valid() && FreshTask(db.State(), id)
      modifies db
      ensures db.Valid()
      ensures Effect(err, db.State()) ==
        CreateTaskFlow(old(db.State()), title, description, creator, requested, parse, id, now)
    {
      var made := Entity.NewTask(title, description, creator, id, now);
      if made.Failure? {
        return Some(made.error);
      }
      var task := made.value;
      assert Entity.Ids(task.users) == [];
      assert Repository.InsertedRow(task, now) == NewRow(id, title, description, creator, now);
      err := taskService.CreateTask(task, now);
      if err.Some? || |requested| == 0 {
        return err;
      }
      var invalid, valid := ScreenRequested(requested, parse);
      if |invalid| > 0 {
        return Some(Plain(Unassignable + Join(invalid, ", ")));
      }
      err := AssignEach(id, valid, creator);
    }

    /** The screening loop of `CreateTask`, one `GetUserByUUID` per parsed id. */
    method ScreenRequested(requested: seq<string>, parse: string -> Option<Uuid>)
      returns (invalid: seq<string>, valid: seq<Uuid>)
      requires Valid()
      ensures Screened(invalid, valid) == Screen(db.users, parse, requested)
    {
      invalid, valid := [], [];
      var i := 0;
      while i < |requested|
        invariant 0 <= i <= |requested|
        invariant Screened(invalid, valid) == Screen(db.users, parse, requested[..i])
      {
        var s := requested[i];
        assert requested[..i + 1][..i] == requested[..i];
        var parsed := parse(s);
        if parsed.None? {
          invalid := invalid + [s + " (invalid format)"];
        } else {
          var found := userService.GetUserByUUID(parsed.value);
          if found.Failure? {
            invalid := invalid + [s + " (not found)"];
          } else {
            valid := valid + [parsed.value];
          }
        }
        i := i + 1;
      }
      assert requested[..i] == requested;
    }

    /** The assignment loop of `CreateTask`: stops at the first failure, wrapped. */
    method AssignEach(t: Uuid, us: seq<Uuid>, requestor: Uuid) returns (err: Option<GoError>)
      requires Valid() && db.Valid()
      modifies db
      ensures db.Valid()
      ensures Effect(err, db.State()) == AssignAll(old(db.State()), t, us, requestor)
    {
      ghost var before := db.State();
      var j := 0;
      while j < |us|
        invariant 0 <= j <= |us| && db.Valid()
        invariant AssignAll(before, t, us[..j], requestor) == Effect(None, db.State())
      {
        var u := us[j];
        assert us[..j + 1] == us[..j] + [u];
        AssignAllSnoc(before, t, us[..j], u, requestor);
        var failed := taskService.AssignTask(t, u, requestor);
        if failed.Some? {
          AssignAllPrefixFailure(before, t, us, requestor, j + 1);
          return Some(Wrapped("failed to assign task to user " + UuidText(u), failed.value));
        }
        j := j + 1;
      }
      assert us[..j] == us;
      return None;
    }

    /** `CompleteTask`: the completion, then the re-fetched task; nothing on error. */
    method CompleteTask(t: Uuid, u: Uuid, now: Time) returns (r: Option<Presenter.TaskResponse>, err: Option<GoError>)
      requires Valid() && db.Valid()
      modifies db
      ensures db.Valid()
      ensures Effect(err, db.State()) == Service.CompleteTaskOutcome(old(db.State()), t, u, now)
      ensures err.None? <==> r.Some?
      ensures r.Some? ==> r.value.id == t && r.value.completed
    {
      err := taskService.CompleteTask(t, u, now);
      if err.Some? {
        return None, err;
      }
      r, err := GetTaskByUUID(t);
    }

    /** `AssignTask`: the assignment, then the re-fetched task, whose primary assignee and
        users now include the assigned user; nothing on error. */
    method AssignTask(t: Uuid, u: Uuid, requestor: Uuid)
      returns (r: Option<Presenter.TaskResponse>, err: Option<GoError>)
      requires Valid() && db.Valid()
      modifies db
      ensures db.Valid()
      ensures Effect(err, db.State()) == Service.AssignTaskOutcome(old(db.State()), t, u, requestor)
      ensures err.None? <==> r.Some?
      ensures r.Some? ==> r.value.id == t && r.value.assignedTo.Some? && r.value.assignedTo.value.id == u
      ensures r.Some? ==> exists s | s in r.value.users :: s.id == u
    {
      err := taskService.AssignTask(t, u, requestor);
      if err.Some? {
        return None, err;
      }
      assert u in AssigneesOf(db.State(), t);
      r, err := GetTaskByUUID(t);
    }

    /** `GetTaskByUUID`: the task as the service loads it, presented; the lookup's error
        when there is none. `CreateTask`, `CompleteTask` and `AssignTask` end with the same
        two calls. */
    method GetTaskByUUID(t: Uuid) returns (r: Option<Presenter.TaskResponse>, err: Option<GoError>)
      requires Valid() && db.Valid()
      ensures err.None? <==> r.Some?
      ensures r.Some? <==> t in db.tasks
      ensures t !in db.tasks ==> err == Some(NoRows)
      ensures r.Some? ==> r.value.id == t && r.value.title == db.tasks[t].title
      ensures r.Some? ==> r.value.description == db.tasks[t].description && r.value.completed == db.tasks[t].completed
      ensures r.Some? && db.tasks[t].createdById in db.users ==> r.value.createdBy.id == db.tasks[t].createdById
      ensures r.Some? ==>
        (r.value.assignedTo.Some? <==> db.tasks[t].assignedToId.Some? && db.tasks[t].assignedToId.value in db.users)
      ensures r.Some? && r.value.assignedTo.Some? ==> r.value.assignedTo.value.id == db.tasks[t].assignedToId.value
      ensures r.Some? ==> forall s | s in r.value.users :: s.id in AssigneesOf(db.State(), t)
      ensures r.Some? ==> forall u | u in AssigneesOf(db.State(), t) :: exists s | s in r.value.users :: s.id == u
    {
      var found := taskService.GetTaskByUUID(t);
      match found {
        case Failure(e) => return None, Some(e);
        case Success(task) =>
          Presenter.LoadedTaskDTO(task, db.tasks[t], db.State());
          r := Presenter.TaskToDTO(task);
          err := None;
      }
    }
  }

  // ---------------------------------------------------------------------------
  // UserUseCase
  // ---------------------------------------------------------------------------

  /** The authentication service, whose bcrypt and JWT internals are not modelled:
      `HashPassword`, `ValidatePassword(hash, plain)` and `GenerateToken`. */
  datatype Auth = Auth(
    hash: string -> Result<string, GoError>,
    validate: (string, string) -> bool,
    token: Uuid -> Result<string, GoError>)

  datatype LoginResponse = LoginResponse(user: Presenter.UserResponse, token: string)

  /** How a stored user is presented. */
  function RowResponse(row: UserRow): (r: Presenter.UserResponse)
    ensures r.id == row.uuid && r.name == row.name && r.email == row.email
  {
    Presenter.UserResponse(row.uuid, row.name, row.email, row.createdAt, row.updatedAt)
  }

  /** `UserUseCase.CreateUser` as a function of the store: hash, build the entity, then
      register it. Only the hash is ever stored, never the plain password. */
  function CreateUserFlow(db: Db, name: string, email: string, password: string, id: Uuid, now: Time,
                          hash: string -> Result<string, GoError>): (e: Effect)
    requires id !in db.users
    ensures hash(password).Failure? ==> e == Effect(Some(hash(password).error), db)
    ensures e.err.None? <==>
      hash(password).Success? && name != "" && email != "" && hash(password).value != ""
      && !EmailTaken(db.users, email)
    ensures e.err.Some? ==> e.db == db
    ensures e.err.None? ==> e.db == db.(users := db.users[id := UserRow(id, name, email, hash(password).value, now, now)])
    ensures Wf(db) ==> Wf(e.db)
  {
    match hash(password)
    case Failure(err) => Effect(Some(err), db)
    case Success(hashed) =>
      if name == "" || email == "" || hashed == "" then
        Effect(Some(Plain("name, email, and password are required")), db)
      else Service.CreateUserOutcome(db, UserRow(id, name, email, hashed, now, now))
  }

  /** `UserUseCase.Login` as a function of the store. An unknown email and a wrong password
      give the same error; a token is asked for only after the password check passed. */
  ghost function LoginOutcome(db: Db, email: string, password: string, auth: Auth): (r: Result<LoginResponse, GoError>)
    requires Wf(db)
    ensures !EmailTaken(db.users, email) ==> r == Failure(InvalidCredentials)
    ensures forall u | u in db.users && db.users[u].email == email ::
      (!auth.validate(db.users[u].password, password) ==> r == Failure(InvalidCredentials))
      && (auth.validate(db.users[u].password, password) && auth.token(u).Failure? ==> r == Failure(auth.token(u).error))
    ensures forall u | u in db.users && db.users[u].email == email ::
      auth.validate(db.users[u].password, password) && auth.token(u).Success? ==>
        r == Success(LoginResponse(RowResponse(db.users[u]), auth.token(u).value))
    ensures r.Success? ==> exists u | u in db.users ::
      && db.users[u].email == email && auth.validate(db.users[u].password, password)
      && auth.token(u) == Success(r.value.token) && r.value.user == RowResponse(db.users[u])
  {
    match EmailOwner(db.users, email)
    case None => Failure(InvalidCredentials)
    case Some(u) =>
      var row := db.users[u];
      if !auth.validate(row.password, password) then Failure(InvalidCredentials)
      else
        match auth.token(u)
        case Failure(err) => Failure(err)
        case Success(token) => Success(LoginResponse(RowResponse(row), token))
  }

  /** `UserUseCase.UpdateUser` as a function of the store: the name changes only when a
      non-empty one is given, the email only when a non-empty different one is given. */
  function UpdateUserFlow(db: Db, id: Uuid, name: string, email: string, now: Time): (e: Effect)
    requires Wf(db)
    ensures id !in db.users ==> e == Effect(Some(NoRows), db)
    ensures e.err.Some? ==> e.db == db
    ensures id in db.users && email != "" && email != db.users[id].email && EmailTaken(db.users, email) ==>
      e.err == Some(Service.EmailRegisteredByOther)
    ensures id in db.users && !(email != "" && email != db.users[id].email && EmailTaken(db.users, email)) ==>
      e.err.None?
    ensures e.err.None? ==> id in db.users && e.db.users.Keys == db.users.Keys
    ensures e.err.None? ==>
      && e.db.users[id].name == (if name != "" then name else db.users[id].name)
      && e.db.users[id].email == (if email != "" then email else db.users[id].email)
      && e.db.users[id].password == db.users[id].password
      && e.db.users[id].updatedAt ==
           (if name != "" || (email != "" && email != db.users[id].email) then now else db.users[id].updatedAt)
    ensures forall v | v in db.users && v != id :: v in e.db.users && e.db.users[v] == db.users[v]
    ensures e.db.tasks == db.tasks && e.db.userTasks == db.userTasks
    ensures Wf(e.db)
  {
    if id !in db.users then Effect(Some(NoRows), db)
    else
      var row := db.users[id];
      var newEmail := email != "" && email != row.email;
      Service.UpdateUserOutcome(db, id,
        if name != "" then name else row.name,
        if newEmail then email else row.email,
        row.password,
        if name != "" || newEmail then now else row.updatedAt)
  }

  class UserUseCase {
    const userService: Service.UserService
    const auth: Auth

    constructor (userService: Service.UserService, auth: Auth)
      ensures this.userService == userService && this.auth == auth
    {
      this.userService, this.auth := userService, auth;
    }

    /** `CreateUser`. The welcome email is not modelled: the result never depends on it. */
    method CreateUser(name: string, email: string, password: string, id: Uuid, now: Time)
      returns (r: Option<Presenter.UserResponse>, err: Option<GoError>)
      requires userService.userRepo.db.Valid() && id !in userService.userRepo.db.users
      modifies userService.userRepo.db
      ensures userService.userRepo.db.Valid()
      ensures Effect(err, userService.userRepo.db.State()) ==
        CreateUserFlow(old(userService.userRepo.db.State()), name, email, password, id, now, auth.hash)
      ensures err.None? <==> r.Some?
      ensures r.Some? ==> r.value == Presenter.UserResponse(id, name, email, now, now)
    {
      var hashed := auth.hash(password);
      if hashed.Failure? {
        return None, Some(hashed.error);
      }
      var made := Entity.NewUser(name, email, hashed.value, id, now);
      if made.Failure? {
        return None, Some(made.error);
      }
      var user := made.value;
      err := userService.CreateUser(user, now);
      if err.Some? {
        return None, err;
      }
      r := Presenter.UserToDTO(user);
    }

    method Login(email: string, password: string) returns (r: Result<LoginResponse, GoError>)
      requires userService.userRepo.db.Valid()
      ensures r == LoginOutcome(userService.userRepo.db.State(), email, password, auth)
    {
      var found := userService.GetUserByEmail(email);
      if found.Failure? {
        return Failure(InvalidCredentials);
      }
      var user := found.value;
      ghost var users := userService.userRepo.db.users;
      ghost var v :| v in users && users[v].email == email && Repository.MirrorsUser(user, users[v]);
      assert EmailOwner(users, email) == Some(v);
      if !auth.validate(user.password, password) {
        return Failure(InvalidCredentials);
      }
      var token := auth.token(user.uuid);
      if token.Failure? {
        return Failure(token.error);
      }
      var dto := Presenter.UserToDTO(user);
      return Success(LoginResponse(dto.value, token.value));
    }

    /** `UpdateUser`: the loaded user is changed in place, then saved and presented. */
    method UpdateUser(id: Uuid, name: string, email: string, now: Time)
      returns (r: Option<Presenter.UserResponse>, err: Option<GoError>)
      requires userService.userRepo.db.Valid()
      modifies userService.userRepo.db
      ensures userService.userRepo.db.Valid()
      ensures Effect(err, userService.userRepo.db.State()) ==
        UpdateUserFlow(old(userService.userRepo.db.State()), id, name, email, now)
      ensures err.None? <==> r.Some?
      ensures r.Some? ==> r.value == RowResponse(userService.userRepo.db.users[id])
    {
      var found := userService.GetUserByUUID(id);
      if found.Failure? {
        return None, Some(found.error);
      }
      var user := found.value;
      ghost var row := userService.userRepo.db.users[id];
      if name != "" {
        err := user.UpdateName(name, now);
        if err.Some? {
          return None, err;
        }
      }
      if email != "" && email != user.email {
        err := user.UpdateEmail(email, now);
        if err.Some? {
          return None, err;
        }
      }
      ghost var newEmail := email != "" && email != row.email;
      assert user.uuid == id && user.password == row.password;
      assert user.name == (if name != "" then name else row.name);
      assert user.email == (if newEmail then email else row.email);
      assert user.updatedAt == (if name != "" || newEmail then now else row.updatedAt);
      err := userService.UpdateUser(user);
      if err.Some? {
        return None, err;
      }
      r := Presenter.UserToDTO(user);
    }
  }
}
