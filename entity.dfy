/** The domain entities of the layered implementation (internal/domain/entity): a task
    and a user, objects whose fields their methods update in place. The clock is not
    read: every method that stamps `UpdatedAt` receives the reading as `now`. */
module Entity {
  import opened Common
  import opened Errors

  /** `entity.User`. The UUID never changes once the object exists. */
  class User {
    const uuid: Uuid
    var name: string
    var email: string
    var password: string
    var createdAt: Time
    var updatedAt: Time
    var tasks: seq<Task>

    constructor (uuid: Uuid, name: string, email: string, password: string, createdAt: Time, updatedAt: Time)
      ensures this.uuid == uuid && this.name == name && this.email == email && this.password == password
      ensures this.createdAt == createdAt && this.updatedAt == updatedAt && tasks == []
    {
      this.uuid, this.name, this.email, this.password := uuid, name, email, password;
      this.createdAt, this.updatedAt, this.tasks := createdAt, updatedAt, [];
    }

    /** Replaces the name; an empty name is refused and nothing changes. */
    method UpdateName(name: string, now: Time) returns (err: Option<GoError>)
      modifies this`name, this`updatedAt
      ensures name == "" ==> err == Some(Plain("name cannot be empty"))
      ensures name == "" ==> this.name == old(this.name) && updatedAt == old(updatedAt)
      ensures name != "" ==> err == None && this.name == name && updatedAt == now
    {
      if name == "" {
        return Some(Plain("name cannot be empty"));
      }
      this.name, updatedAt := name, now;
      return None;
    }

    /** Replaces the email; an empty email is refused and nothing changes. */
    method UpdateEmail(email: string, now: Time) returns (err: Option<GoError>)
      modifies this`email, this`updatedAt
      ensures email == "" ==> err == Some(Plain("email cannot be empty"))
      ensures email == "" ==> this.email == old(this.email) && updatedAt == old(updatedAt)
      ensures email != "" ==> err == None && this.email == email && updatedAt == now
    {
      if email == "" {
        return Some(Plain("email cannot be empty"));
      }
      this.email, updatedAt := email, now;
      return None;
    }

    /** Replaces the password hash; an empty hash is refused and nothing changes. */
    method UpdatePassword(hashedPassword: string, now: Time) returns (err: Option<GoError>)
      modifies this`password, this`updatedAt
      ensures hashedPassword == "" ==> err == Some(Plain("password cannot be empty"))
      ensures hashedPassword == "" ==> password == old(password) && updatedAt == old(updatedAt)
      ensures hashedPassword != "" ==> err == None && password == hashedPassword && updatedAt == now
    {
      if hashedPassword == "" {
        return Some(Plain("password cannot be empty"));
      }
      password, updatedAt := hashedPassword, now;
      return None;
    }
  }

  /** The UUIDs of a list of users, in order. */
  function Ids(users: seq<User>): seq<Uuid> {
    seq(|users|, i requires 0 <= i < |users| => users[i].uuid)
  }

  /** `entity.Task`. `createdBy`, `assignedTo` and `users` are the loaded relations
      (nil pointers are `null`); `assignedToId` is the primary-assignee pointer. */
  class Task {
    const uuid: Uuid
    var title: string
    var description: string
    var completed: bool
    var createdAt: Time
    var updatedAt: Time
    var createdById: Uuid
    var assignedToId: Option<Uuid>
    var createdBy: User?
    var assignedTo: User?
    var users: seq<User>

    /** A task literal with no relations loaded. */
    constructor (uuid: Uuid, title: string, description: string, completed: bool,
                 createdAt: Time, updatedAt: Time, createdById: Uuid, assignedToId: Option<Uuid>)
      ensures this.uuid == uuid && this.title == title && this.description == description
      ensures this.completed == completed && this.createdAt == createdAt && this.updatedAt == updatedAt
      ensures this.createdById == createdById && this.assignedToId == assignedToId
      ensures createdBy == null && assignedTo == null && users == []
    {
      this.uuid, this.title, this.description, this.completed := uuid, title, description, completed;
      this.createdAt, this.updatedAt := createdAt, updatedAt;
      this.createdById, this.assignedToId := createdById, assignedToId;
      createdBy, assignedTo, users := null, null, [];
    }

    /** Marks the task completed. Completion is one-way: on a completed task it fails
        and changes nothing. */
    method Complete(now: Time) returns (err: Option<GoError>)
      modifies this`completed, this`updatedAt
      ensures old(completed) ==> err == Some(Plain("task is already completed")) && updatedAt == old(updatedAt)
      ensures !old(completed) ==> err == None && updatedAt == now
      ensures completed
    {
      if completed {
        return Some(Plain("task is already completed"));
      }
      completed, updatedAt := true, now;
      return None;
    }

    /** The creator, and every user in the loaded `users` relation, may modify the task. */
    method CanBeModifiedBy(userId: Uuid) returns (allowed: bool)
      ensures allowed <==> createdById == userId || userId in Ids(users)
    {
      if createdById == userId {
        return true;
      }
      var i := 0;
      while i < |users|
        invariant 0 <= i <= |users|
        invariant forall k | 0 <= k < i :: users[k].uuid != userId
      {
        if users[i].uuid == userId {
          assert Ids(users)[i] == userId;
          return true;
        }
        i := i + 1;
      }
      return false;
    }

    /** Points the primary assignee at `userId`; the `users` relation, the completion
        flag and the creator are untouched. */
    method AssignTo(userId: Uuid, now: Time)
      modifies this`assignedToId, this`updatedAt
      ensures assignedToId == Some(userId) && updatedAt == now
    {
      assignedToId, updatedAt := Some(userId), now;
    }

    /** Appends `user` to the `users` relation unless a user with the same UUID is
        already there; the relation stays free of repeated UUIDs. */
    method AddUser(user: User, now: Time)
      modifies this`users, this`updatedAt
      ensures user.uuid in Ids(old(users)) ==> users == old(users) && updatedAt == old(updatedAt)
      ensures user.uuid !in Ids(old(users)) ==> users == old(users) + [user] && updatedAt == now
      ensures Distinct(Ids(old(users))) ==> Distinct(Ids(users))
    {
      var i := 0;
      while i < |users|
        invariant 0 <= i <= |users|
        invariant forall k | 0 <= k < i :: users[k].uuid != user.uuid
      {
        if users[i].uuid == user.uuid {
          assert Ids(users)[i] == user.uuid;
          return;
        }
        i := i + 1;
      }
      assert forall k | 0 <= k < |users| :: Ids(users)[k] != user.uuid;
      assert Ids(users + [user]) == Ids(users) + [user.uuid];
      users, updatedAt := users + [user], now;
    }
  }

  /** `NewTask`: refuses an empty title; otherwise an open task of `createdById` with
      the fresh UUID `id`, stamped `now`, with no primary assignee and no users. */
  method NewTask(title: string, description: string, createdById: Uuid, id: Uuid, now: Time)
    returns (r: Result<Task, GoError>)
    ensures r.Failure? <==> title == ""
    ensures r.Failure? ==> r.error == Plain("task title is required")
    ensures r.Success? ==> fresh(r.value)
    ensures r.Success? ==> r.value.uuid == id && r.value.title == title && r.value.description == description
    ensures r.Success? ==> !r.value.completed && r.value.createdById == createdById
    ensures r.Success? ==> r.value.assignedToId == None && r.value.users == []
    ensures r.Success? ==> r.value.createdAt == now && r.value.updatedAt == now
    ensures r.Success? ==> r.value.createdBy == null && r.value.assignedTo == null
  {
    if title == "" {
      return Failure(Plain("task title is required"));
    }
    var t := new Task(id, title, description, false, now, now, createdById, None);
    return Success(t);
  }

  /** `NewUser`: refuses an empty name, email or password hash; otherwise a user holding
      exactly those values, the fresh UUID `id` and no tasks. */
  method NewUser(name: string, email: string, hashedPassword: string, id: Uuid, now: Time)
    returns (r: Result<User, GoError>)
    ensures r.Failure? <==> name == "" || email == "" || hashedPassword == ""
    ensures r.Failure? ==> r.error == Plain("name, email, and password are required")
    ensures r.Success? ==> fresh(r.value)
    ensures r.Success? ==> r.value.uuid == id && r.value.name == name && r.value.email == email
    ensures r.Success? ==> r.value.password == hashedPassword && r.value.tasks == []
    ensures r.Success? ==> r.value.createdAt == now && r.value.updatedAt == now
  {
    if name == "" || email == "" || hashedPassword == "" {
      return Failure(Plain("name, email, and password are required"));
    }
    var u := new User(id, name, email, hashedPassword, now, now);
    return Success(u);
  }
}
