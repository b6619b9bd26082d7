/** Where the two implementations of the same workflow part ways: the legacy active
    records (models/task.go with controllers/task.go) and the layered service
    (internal/domain/service, internal/app/usecase). */
module Comparison {
  import opened Common
  import opened Store
  import Service
  import UseCase
  import Models
  import Controllers

  /** Creating a task for two or more distinct existing users: both paths succeed and link
      exactly the same users, but the legacy path makes the FIRST listed user the primary
      assignee while the layered path leaves the LAST one there. */
  lemma {:induction false} PrimaryAssigneeCompared(db: Db, title: string, description: string, creator: Uuid,
                                                   ids: seq<Uuid>, requested: seq<string>,
                                                   parse: string -> Option<Uuid>, id: Uuid, now: Time)
    requires FreshTask(db, id) && title != "" && creator in db.users
    requires |ids| >= 2 && Distinct(ids) && forall u | u in ids :: u in db.users
    requires |requested| == |ids| && forall i | 0 <= i < |ids| :: parse(requested[i]) == Some(ids[i])
    ensures var legacy := Models.CreateOutcome(db, TaskRow(id, title, description, false, now, now, creator,
                                                           Controllers.FirstListed(ids)), ids);
            var layered := UseCase.CreateTaskFlow(db, title, description, creator, requested, parse, id, now);
      && legacy.err.None? && layered.err.None?
      && legacy.db.userTasks == layered.db.userTasks
      && legacy.db.tasks[id].assignedToId == Some(ids[0])
      && layered.db.tasks[id].assignedToId == Some(ids[|ids| - 1])
      && legacy.db.tasks[id].assignedToId != layered.db.tasks[id].assignedToId
  {
    var row := TaskRow(id, title, description, false, now, now, creator, Controllers.FirstListed(ids));
    Models.CreateOutcomeProps(db, row, ids);
    UseCase.CreateTaskFlowOutcome(db, title, description, creator, requested, parse, id, now);
    forall s | s in requested ensures UseCase.Resolves(db.users, parse, s) {
      var i :| 0 <= i < |requested| && requested[i] == s;
      assert ids[i] in ids;
    }
    UseCase.ParsedPairs(id, requested, parse, ids);
    assert parse(requested[|requested| - 1]) == Some(ids[|ids| - 1]);
    assert ids[0] != ids[|ids| - 1];
  }

  /** Assigning a user who is already linked: the layered service accepts it and leaves
      the links as they were, while the legacy record refuses it. */
  lemma DuplicateAssignmentCompared(db: Db, t: Uuid, u: Uuid)
    requires t in db.tasks && u in db.users && (t, u) in db.userTasks
    ensures var creator := db.tasks[t].createdById;
            var layered := Service.AssignTaskOutcome(db, t, u, creator);
      && layered.err.None? && layered.db.userTasks == db.userTasks
      && Models.AssignOutcome(db, t, creator, creator, u).err == Some(Models.AlreadyAssigned)
  {
  }
}
