/** The request-to-domain logic of the legacy HTTP handlers (controllers/task.go): the
    assignee list a new task is built with, the path segments task and user ids are read
    from, and the status a refused delete is answered with. Request decoding and response
    writing are not modelled. */
module Controllers {
  import opened Common
  import opened Errors
  import opened Store
  import Models

  const TasksPrefix := "/tasks/"
  const CompleteSuffix := "/complete"
  const AssignSegment := "assign"

  const StatusForbidden := 403
  const StatusInternalServerError := 500

  /** The primary assignee the legacy handler sets: the first listed user, if any. */
  function FirstListed(ids: seq<Uuid>): (r: Option<Uuid>)
    ensures r.None? <==> ids == []
    ensures r.Some? ==> r.value == ids[0] && r.value in ids
  {
    if ids == [] then None else Some(ids[0])
  }

  /** The first half of `CreateTask`: each listed user is looked up in request order, and
      the first unknown one ends the request before anything is created (null). Otherwise
      the new record lists the users in request order, duplicates included, and its primary
      pointer is the first of them. */
  method NewTaskFromRequest(db: Database, title: string, description: string, ids: seq<Uuid>)
    returns (task: Models.Task?)
    ensures task == null <==> exists u | u in ids :: u !in db.users
    ensures task != null ==> fresh(task)
    ensures task != null ==> task.title == title && task.description == description
    ensures task != null ==> task.users == ids && task.assignedToId == FirstListed(ids)
    ensures task != null ==> task.uuid == NilUuid && !task.completed && task.createdById == NilUuid
  {
    var users: seq<Uuid> := [];
    var i := 0;
    while i < |ids|
      invariant 0 <= i <= |ids| && users == ids[..i]
      invariant forall k | 0 <= k < i :: ids[k] in db.users
    {
      if ids[i] !in db.users {
        return null;
      }
      users := users + [ids[i]];
      i := i + 1;
    }
    assert users == ids;
    task := new Models.Task(title, description);
    if |users| > 0 {
      task.users := users;
      task.assignedToId := Some(users[0]);
    }
  }

  /** What the handler's answer to a create request rests on. */
  datatype CreateResult = UnknownAssignee | Refused(err: GoError) | Created

  /** `CreateTask` up to the response: build the record, then `ValidateAndCreateTask` by the
      requesting user under the new UUID `id`. The stored primary assignee is the first
      listed user. */
  method CreateTask(db: Database, userId: Uuid, title: string, description: string, ids: seq<Uuid>,
                    id: Uuid, now: Time) returns (r: CreateResult)
    requires FreshTask(db.State(), id)
    modifies db
    ensures r.UnknownAssignee? <==> exists u | u in ids :: u !in old(db.users)
    ensures r.UnknownAssignee? ==> db.State() == old(db.State())
    ensures !r.UnknownAssignee? ==>
      Effect(if r.Refused? then Some(r.err) else None, db.State())
      == Models.CreateOutcome(old(db.State()), TaskRow(id, title, description, false, now, now, userId, FirstListed(ids)), ids)
  {
    var task := NewTaskFromRequest(db, title, description, ids);
    if task == null {
      return UnknownAssignee;
    }
    var err := task.ValidateAndCreateTask(db, userId, id, now);
    r := if err.Some? then Refused(err.value) else Created;
  }

  /** A create request naming only existing, distinct users, with a title, by an existing
      user, stores the task with its first listed user as primary assignee and links
      every listed user. */
  lemma CreatedWithFirstPrimary(db: Db, userId: Uuid, title: string, description: string, ids: seq<Uuid>,
                                id: Uuid, now: Time)
    requires FreshTask(db, id)
    requires title != "" && userId in db.users && (forall u | u in ids :: u in db.users) && Distinct(ids)
    ensures var e := Models.CreateOutcome(db, TaskRow(id, title, description, false, now, now, userId, FirstListed(ids)), ids);
      && e.err.None?
      && e.db.tasks[id].assignedToId == FirstListed(ids)
      && (forall u | u in ids :: (id, u) in e.db.userTasks)
  {
    Models.CreateOutcomeProps(db, TaskRow(id, title, description, false, now, now, userId, FirstListed(ids)), ids);
  }

  /** `CompleteTask`'s task id: the path without its "/tasks/" prefix and "/complete" suffix. */
  function CompleteTaskId(path: string): (id: string)
    ensures !HasPrefix(path, TasksPrefix) && !HasSuffix(path, CompleteSuffix) ==> id == path
    ensures |id| <= |path|
  {
    TrimSuffix(TrimPrefix(path, TasksPrefix), CompleteSuffix)
  }

  /** The id written into a completion path is the id read back. */
  lemma {:induction false} CompleteTaskIdRoundTrip(id: string)
    ensures CompleteTaskId(TasksPrefix + id + CompleteSuffix) == id
  {
  }

  /** The task and user segments of an assignment path. */
  datatype AssignPath = AssignPath(taskId: string, userId: string)

  /** `AssignTask`'s path handling: after the "/tasks/" prefix, the path splits on "/" into
      at least three segments whose second is "assign"; the first and third are the ids and
      any further segments are ignored. Anything else is a bad path (None). */
  function ParseAssignPath(path: string): (r: Option<AssignPath>)
    ensures r.Some? ==> '/' !in r.value.taskId && '/' !in r.value.userId
    ensures r.Some? ==> AssignSegment in Split(TrimPrefix(path, TasksPrefix), '/')
  {
    var parts := Split(TrimPrefix(path, TasksPrefix), '/');
    if |parts| < 3 || parts[1] != AssignSegment then None
    else Some(AssignPath(parts[0], parts[2]))
  }

  /** Removing the "/tasks/" prefix from a path built with it gives back the rest. */
  lemma {:induction false} TrimTasksPrefix(tail: string)
    ensures TrimPrefix(TasksPrefix + tail, TasksPrefix) == tail
  {
  }

  /** Splitting `a + "/" + b + "/" + rest`, where `a` and `b` hold no separator. */
  lemma {:induction false} SplitThree(a: string, b: string, rest: string)
    requires '/' !in a && '/' !in b
    ensures Split(a + "/" + b + "/" + rest, '/') == [a, b] + Split(rest, '/')
  {
    assert a + "/" + b + "/" + rest == a + ['/'] + (b + ['/'] + rest);
    SplitCons(a, '/', b + ['/'] + rest);
    SplitCons(b, '/', rest);
  }

  /** The segments of `"/tasks/" + a + "/" + b + "/" + rest`. */
  lemma {:induction false} AssignPathParts(a: string, b: string, rest: string)
    requires '/' !in a && '/' !in b
    ensures Split(TrimPrefix(TasksPrefix + a + "/" + b + "/" + rest, TasksPrefix), '/') == [a, b] + Split(rest, '/')
  {
    var tail := a + "/" + b + "/" + rest;
    assert TasksPrefix + a + "/" + b + "/" + rest == TasksPrefix + tail;
    TrimTasksPrefix(tail);
    SplitThree(a, b, rest);
  }

  /** The segments of `"/tasks/" + taskId + "/assign/" + rest`. */
  lemma {:induction false} AssignPathSegments(taskId: string, rest: string)
    requires '/' !in taskId
    ensures Split(TrimPrefix(TasksPrefix + taskId + "/assign/" + rest, TasksPrefix), '/')
      == [taskId, AssignSegment] + Split(rest, '/')
  {
    assert "/assign/" == "/" + AssignSegment + "/";
    assert TasksPrefix + taskId + "/assign/" + rest == TasksPrefix + taskId + "/" + AssignSegment + "/" + rest;
    AssignPathParts(taskId, AssignSegment, rest);
  }

  /** A path whose first three segments are a task id, "assign" and a user id names them. */
  lemma ParseFromSegments(path: string, taskId: string, userId: string, more: seq<string>)
    requires Split(TrimPrefix(path, TasksPrefix), '/') == [taskId, AssignSegment, userId] + more
    ensures ParseAssignPath(path) == Some(AssignPath(taskId, userId))
  {
  }

  /** Ids written into an assignment path are read back. */
  lemma {:induction false} AssignPathRoundTrip(taskId: string, userId: string)
    requires '/' !in taskId && '/' !in userId
    ensures ParseAssignPath(TasksPrefix + taskId + "/assign/" + userId) == Some(AssignPath(taskId, userId))
  {
    AssignPathSegments(taskId, userId);
    assert Split(userId, '/') == [userId];
    assert [taskId, AssignSegment] + [userId] == [taskId, AssignSegment, userId] + [];
    ParseFromSegments(TasksPrefix + taskId + "/assign/" + userId, taskId, userId, []);
  }

  /** Segments after the user id are ignored. */
  lemma {:induction false} AssignPathExtraIgnored(taskId: string, userId: string, extra: string)
    requires '/' !in taskId && '/' !in userId
    ensures ParseAssignPath(TasksPrefix + taskId + "/assign/" + userId + "/" + extra) == Some(AssignPath(taskId, userId))
  {
    var rest := userId + ['/'] + extra;
    var path := TasksPrefix + taskId + "/assign/" + userId + "/" + extra;
    assert path == TasksPrefix + taskId + "/assign/" + rest;
    AssignPathSegments(taskId, rest);
    SplitCons(userId, '/', extra);
    assert [taskId, AssignSegment] + ([userId] + Split(extra, '/')) == [taskId, AssignSegment, userId] + Split(extra, '/');
    ParseFromSegments(path, taskId, userId, Split(extra, '/'));
  }

  /** A path whose second segment is not "assign" is refused. */
  lemma {:induction false} WrongVerbRefused(taskId: string, verb: string, rest: string)
    requires '/' !in taskId && '/' !in verb && verb != AssignSegment
    ensures ParseAssignPath(TasksPrefix + taskId + "/" + verb + "/" + rest).None?
  {
    AssignPathParts(taskId, verb, rest);
  }

  /** A path with only the task id, or the task id and one more segment, is refused. */
  lemma {:induction false} ShortPathRefused(taskId: string, verb: string)
    requires '/' !in taskId && '/' !in verb
    ensures ParseAssignPath(TasksPrefix + taskId).None?
    ensures ParseAssignPath(TasksPrefix + taskId + "/" + verb).None?
  {
    TrimTasksPrefix(taskId);
    assert Split(taskId, '/') == [taskId];
    var tail := taskId + "/" + verb;
    assert TasksPrefix + taskId + "/" + verb == TasksPrefix + tail;
    TrimTasksPrefix(tail);
    assert tail == taskId + ['/'] + verb;
    SplitCons(taskId, '/', verb);
    assert Split(verb, '/') == [verb];
  }

  /** `DeleteTask`'s answer to a refused delete: Forbidden exactly when the error's text is
      the creator-only message, Internal Server Error for every other error. */
  function DeleteStatus(err: GoError): (status: int)
    ensures status == StatusForbidden <==> Text(err) == Text(Models.NotOwnTask)
    ensures status == StatusForbidden || status == StatusInternalServerError
  {
    if Text(err) == Text(Models.NotOwnTask) then StatusForbidden else StatusInternalServerError
  }

  /** A delete refused because the requester did not create the task is answered with
      Forbidden; a failure wrapping that refusal has a longer text and is answered with 500. */
  lemma DeleteRefusalForbidden(db: Db, t: Uuid, owner: Uuid, u: Uuid, context: string)
    ensures Models.DeleteOutcome(db, t, owner, u).err.Some? ==>
      DeleteStatus(Models.DeleteOutcome(db, t, owner, u).err.value) == StatusForbidden
    ensures DeleteStatus(WrapError(Models.NotOwnTask, context)) == StatusInternalServerError
  {
    var w := WrapError(Models.NotOwnTask, context);
    assert |Text(w).value| > |Text(Models.NotOwnTask).value|;
  }
}
