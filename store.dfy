/** The relational store shared by both implementations: the `users`, `tasks` and
    `user_tasks` tables (internal/infrastructure/persistence/task.go and user.go, models/user_task.go).
    Rows are keyed by their UUID; the int64 surrogate keys are abstracted away. */
module Store {
  import opened Common
  import opened Errors

  datatype UserRow = UserRow(
    uuid: Uuid, name: string, email: string, password: string,
    createdAt: Time, updatedAt: Time)

  datatype TaskRow = TaskRow(
    uuid: Uuid, title: string, description: string, completed: bool,
    createdAt: Time, updatedAt: Time,
    createdById: Uuid, assignedToId: Option<Uuid>)

  /** A `user_tasks` row, (task, user). The table's composite primary key makes the
      table a set: no pair can be stored twice. */
  type Assignment = (Uuid, Uuid)

  /** The contents of the three tables. */
  datatype Db = Db(users: map<Uuid, UserRow>, tasks: map<Uuid, TaskRow>, userTasks: set<Assignment>)

  /** What a state-changing operation returns (None is Go's nil error) and the store after it. */
  datatype Effect = Effect(err: Option<GoError>, db: Db)

  /** `sql.ErrNoRows`, returned by a select that finds nothing. */
  const NoRows := Plain("sql: no rows in result set")

  /** The driver's error for a violated unique or primary-key constraint. */
  const DuplicateKey := Plain("ERROR #23505 duplicate key value violates unique constraint")

  /** The unique constraint on `users.email`. */
  predicate UniqueEmails(users: map<Uuid, UserRow>) {
    forall a, b | a in users && b in users && users[a].email == users[b].email :: a == b
  }

  /** Store invariant: every row sits under its own UUID and no email is used twice. */
  predicate Wf(db: Db) {
    && (forall u | u in db.users :: db.users[u].uuid == u)
    && (forall t | t in db.tasks :: db.tasks[t].uuid == t)
    && UniqueEmails(db.users)
  }

  predicate EmailTaken(users: map<Uuid, UserRow>, email: string) {
    exists u | u in users :: users[u].email == email
  }

  /** The user holding `email`, if any (unique under `UniqueEmails`). */
  ghost function EmailOwner(users: map<Uuid, UserRow>, email: string): (r: Option<Uuid>)
    ensures r.Some? <==> EmailTaken(users, email)
    ensures r.Some? ==> r.value in users && users[r.value].email == email
  {
    if EmailTaken(users, email) then
      var u :| u in users && users[u].email == email; Some(u)
    else None
  }

  /** A UUID that names no task row and no `user_tasks` row: what `uuid.New()` gives. */
  predicate FreshTask(db: Db, t: Uuid) {
    t !in db.tasks && forall p | p in db.userTasks :: p.0 != t
  }

  /** The users a task's `Users` relation resolves to: its `user_tasks` rows joined
      with the users that still exist. */
  function AssigneesOf(db: Db, t: Uuid): set<Uuid> {
    set p | p in db.userTasks && p.0 == t && p.1 in db.users :: p.1
  }

  /** No task changes creator. */
  predicate CreatorsKept(before: Db, after: Db) {
    forall t | t in before.tasks && t in after.tasks ::
      after.tasks[t].createdById == before.tasks[t].createdById
  }

  /** No completed task becomes open again. */
  predicate CompletionKept(before: Db, after: Db) {
    forall t | t in before.tasks && t in after.tasks && before.tasks[t].completed ::
      after.tasks[t].completed
  }

  /** Why inserting the `user_tasks` rows of a new task stopped. */
  datatype LinkFailure = MissingUser(user: Uuid) | DuplicateLink(user: Uuid)

  /** The loop both task-creation paths run inside their transaction: for each listed
      user in order, look the user up and insert (task, user). An unknown user or a pair
      that is already present (composite key) stops the loop. */
  function LinkUsers(db: Db, t: Uuid, us: seq<Uuid>): Result<set<Assignment>, LinkFailure>
    decreases |us|
  {
    if us == [] then Success(db.userTasks)
    else
      match LinkUsers(db, t, us[..|us| - 1])
      case Failure(f) => Failure(f)
      case Success(links) =>
        var u := us[|us| - 1];
        if u !in db.users then Failure(MissingUser(u))
        else if (t, u) in links then Failure(DuplicateLink(u))
        else Success(links + {(t, u)})
  }

  /** The pairs linking task `t` to each user of a list. */
  function PairsOf(t: Uuid, us: seq<Uuid>): (pairs: set<Assignment>)
    ensures forall u | u in us :: (t, u) in pairs
  {
    set u | u in us :: (t, u)
  }

  lemma PairsOfSnoc(t: Uuid, init: seq<Uuid>, u: Uuid)
    ensures PairsOf(t, init + [u]) == PairsOf(t, init) + {(t, u)}
  {
    assert forall v | v in init + [u] :: v in init || v == u;
  }

  /** The links of a fresh task succeed exactly when every listed user exists and none is
      listed twice; they then add one pair per listed user. */
  lemma {:induction false} LinkUsersOutcome(db: Db, t: Uuid, us: seq<Uuid>)
    requires FreshTask(db, t)
    ensures LinkUsers(db, t, us).Success? <==> (forall u | u in us :: u in db.users) && Distinct(us)
    ensures LinkUsers(db, t, us).Success? ==> LinkUsers(db, t, us).value == db.userTasks + PairsOf(t, us)
  {
    if us != [] {
      var init, u := us[..|us| - 1], us[|us| - 1];
      assert us == init + [u];
      LinkUsersOutcome(db, t, init);
      DistinctSnoc(init, u);
      PairsOfSnoc(t, init, u);
      assert forall v | v in us :: v in init || v == u;
      var r := LinkUsers(db, t, init);
      if r.Success? {
        assert (t, u) in r.value <==> u in init;
      }
    }
  }

  /** Which failure stops the links: with distinct users only a missing one can, with
      existing users only a repeated one can. */
  lemma {:induction false} LinkUsersFailureKind(db: Db, t: Uuid, us: seq<Uuid>)
    requires FreshTask(db, t)
    ensures Distinct(us) && LinkUsers(db, t, us).Failure? ==> LinkUsers(db, t, us).error.MissingUser?
    ensures (forall u | u in us :: u in db.users) && LinkUsers(db, t, us).Failure? ==>
      LinkUsers(db, t, us).error.DuplicateLink?
  {
    if us != [] {
      var init, u := us[..|us| - 1], us[|us| - 1];
      assert us == init + [u];
      LinkUsersFailureKind(db, t, init);
      if Distinct(us) {
        assert Distinct(init);
      }
      var r := LinkUsers(db, t, init);
      if r.Success? && Distinct(us) {
        LinkUsersOutcome(db, t, init);
        DistinctSnoc(init, u);
      }
    }
  }

  /** A failure names a listed user: a missing one, or an existing one listed twice. */
  lemma {:induction false} LinkUsersFailureNames(db: Db, t: Uuid, us: seq<Uuid>)
    ensures LinkUsers(db, t, us).Failure? ==> LinkUsers(db, t, us).error.user in us
    ensures LinkUsers(db, t, us).Failure? && LinkUsers(db, t, us).error.MissingUser? ==>
      LinkUsers(db, t, us).error.user !in db.users
    ensures LinkUsers(db, t, us).Failure? && LinkUsers(db, t, us).error.DuplicateLink? ==>
      LinkUsers(db, t, us).error.user in db.users
    decreases |us|
  {
    if us != [] {
      var init := us[..|us| - 1];
      assert us == init + [us[|us| - 1]];
      LinkUsersFailureNames(db, t, init);
      assert forall u | u in init :: u in us;
    }
  }

  /** `us`, in some order and each once: how a loaded relation lists a set of users.
      The order the database returns them in is not modelled. */
  method Enumerate(us: set<Uuid>) returns (xs: seq<Uuid>)
    ensures Distinct(xs) && (forall u | u in xs :: u in us) && (forall u | u in us :: u in xs)
  {
    var remaining := us;
    xs := [];
    while remaining != {}
      invariant remaining <= us && Distinct(xs)
      invariant forall u | u in xs :: u in us && u !in remaining
      invariant forall u | u in us :: u in xs || u in remaining
      decreases remaining
    {
      var u :| u in remaining;
      xs := xs + [u];
      remaining := remaining - {u};
    }
  }

  /** Once a prefix of the list fails, the whole loop fails the same way. */
  lemma {:induction false} LinkUsersPrefixFailure(db: Db, t: Uuid, us: seq<Uuid>, k: nat)
    requires k <= |us| && LinkUsers(db, t, us[..k]).Failure?
    ensures LinkUsers(db, t, us) == LinkUsers(db, t, us[..k])
    decreases |us| - k
  {
    if k < |us| {
      var longer := us[..k + 1];
      assert longer[..|longer| - 1] == us[..k];
      assert LinkUsers(db, t, longer).Failure?;
      LinkUsersPrefixFailure(db, t, us, k + 1);
    } else {
      assert us[..k] == us;
    }
  }

  /** Filters of the two per-user task listings. */
  datatype Filter = CreatedBy(user: Uuid) | AssignedTo(user: Uuid)

  predicate Matches(f: Filter, row: TaskRow) {
    match f
    case CreatedBy(u) => row.createdById == u
    case AssignedTo(u) => row.assignedToId == Some(u)
  }

  function MatchingRows(db: Db, f: Filter): set<TaskRow> {
    set t | t in db.tasks && Matches(f, db.tasks[t]) :: db.tasks[t]
  }

  /** `ORDER BY created_at DESC`. */
  predicate NewestFirst(rows: seq<TaskRow>) {
    forall i, j | 0 <= i < j < |rows| :: rows[i].createdAt >= rows[j].createdAt
  }

  /** What a filtered, ordered select returns: every matching row once, newest first. */
  predicate IsSelection(db: Db, f: Filter, rows: seq<TaskRow>) {
    && (forall i | 0 <= i < |rows| :: rows[i] in MatchingRows(db, f))
    && (forall r | r in MatchingRows(db, f) :: r in rows)
    && Distinct(rows)
    && NewestFirst(rows)
  }

  /** Places `r` in front of the first row that is not newer than it. */
  function InsertNewestFirst(rows: seq<TaskRow>, r: TaskRow): (out: seq<TaskRow>)
    ensures |out| == |rows| + 1
  {
    if rows == [] || rows[0].createdAt <= r.createdAt then [r] + rows
    else [rows[0]] + InsertNewestFirst(rows[1..], r)
  }

  lemma {:induction false} InsertNewestFirstProps(rows: seq<TaskRow>, r: TaskRow)
    requires NewestFirst(rows) && Distinct(rows) && r !in rows
    ensures NewestFirst(InsertNewestFirst(rows, r)) && Distinct(InsertNewestFirst(rows, r))
    ensures forall x :: x in InsertNewestFirst(rows, r) <==> x in rows || x == r
  {
    if rows != [] && rows[0].createdAt > r.createdAt {
      var tail := rows[1..];
      assert NewestFirst(tail) && Distinct(tail);
      InsertNewestFirstProps(tail, r);
      var out := InsertNewestFirst(rows, r);
      assert out == [rows[0]] + InsertNewestFirst(tail, r);
      forall x | x in InsertNewestFirst(tail, r) ensures rows[0].createdAt >= x.createdAt && x != rows[0] {
        if x in tail {
          var k :| 0 <= k < |tail| && tail[k] == x;
          assert rows[k + 1] == x;
        }
      }
    }
  }

  /** The three tables, updated in place by the repositories and the legacy models. */
  class Database {
    var users: map<Uuid, UserRow>
    var tasks: map<Uuid, TaskRow>
    var userTasks: set<Assignment>

    function State(): Db
      reads this
    {
      Db(users, tasks, userTasks)
    }

    ghost predicate Valid()
      reads this
    {
      Wf(State())
    }

    /** Empty tables, as the migrations create them. */
    constructor ()
      ensures Valid() && State() == Db(map[], map[], {})
    {
      users, tasks, userTasks := map[], map[], {};
    }

    /** Commits a transaction: the tables take the contents it built. */
    method Commit(next: Db)
      modifies this
      ensures State() == next
    {
      users, tasks, userTasks := next.users, next.tasks, next.userTasks;
    }

    /** `SELECT * FROM tasks WHERE <f> ORDER BY created_at DESC`. */
    method Select(f: Filter) returns (rows: seq<TaskRow>)
      requires Valid()
      ensures IsSelection(State(), f, rows)
    {
      var remaining := set t | t in tasks && Matches(f, tasks[t]);
      rows := [];
      while remaining != {}
        invariant remaining <= tasks.Keys
        invariant forall t | t in remaining :: Matches(f, tasks[t])
        invariant forall r | r in rows :: r in MatchingRows(State(), f) && r.uuid !in remaining
        invariant forall t | t in tasks && Matches(f, tasks[t]) && t !in remaining :: tasks[t] in rows
        invariant Distinct(rows) && NewestFirst(rows)
        decreases remaining
      {
        var t :| t in remaining;
        var row := tasks[t];
        assert row.uuid == t;
        InsertNewestFirstProps(rows, row);
        rows := InsertNewestFirst(rows, row);
        remaining := remaining - {t};
      }
    }
  }
}
