# Task assignment and authorization, modelled in Dafny

This project models the task-management backend of the Go repository
`Task_App`. Users register and log in. They create tasks, assign other users to
them, complete them and delete them. The repository implements this workflow twice,
and the model keeps both implementations side by side without reconciling them:

- the **layered implementation**: domain entities (`internal/domain/entity`), domain
  services (`internal/domain/service`), bun repositories
  (`internal/adapter/repository`), application use cases (`internal/app/usecase`) and
  presenters (`internal/adapter/presenter`);
- the **legacy implementation**: active records in `models/` and the HTTP handlers in
  `controllers/task.go`, of which only the request-to-domain logic is modelled.

Both run over one relational store, modelled in `store.dfy` as three tables. `users` and
`tasks` are maps from UUID to row, and `user_tasks` is a set of (task, user) pairs; its
composite primary key means no pair is stored twice. Every state-changing operation has
two parts:

- a specification function returns an `Effect`: the Go error result (`None` for nil)
  and the store afterwards;
- the imperative method (a repository, service, use-case or active-record method that
  updates the `Database` object or the entity in place) is proved equal to that function.

The specification functions carry the properties:

- guard order and exact error texts;
- "nothing changes on error";
- all-or-nothing creation;
- the store invariant `Wf` (rows keyed by their own UUID, emails unique);
- creators never change, and a completed task never reopens.

Smaller pure helpers are modelled too:

- `AppError`'s message selection and unwrapping (`errors.dfy`);
- bearer-token selection (`http_utils.dfy`);
- configuration defaults over an environment map (`config.dfy`);
- the log-masking functions of the API entry point (`masking.dfy`).

`comparison.dfy` proves where the two implementations part ways:

- The legacy create path makes the first listed user the primary assignee. The
  layered use case leaves the last one there.
- Re-assigning an already linked user is accepted silently by the layered service and
  refused by the legacy record.
- The legacy completion check reads `user_tasks` directly, so a linked user whose row
  was deleted keeps the right to complete. The layered check only counts users that
  still exist.

Behaviours of the code worth knowing:

- Deleting a task leaves its `user_tasks` rows in place. Both delete paths only
  soft-delete the task row.
- Re-assigning an already linked user through the layered `AssignTask` is not a
  conflict. The repository skips the insert and only moves the primary pointer.
- The primary assignee of a task created with several users is the last of them in
  the layered use case, not the first.
- Repeated assignee ids at creation are not deduplicated by the legacy path. The
  composite key refuses the second insert and the whole creation rolls back. The
  layered use case does tolerate them.
- For a user who is neither the creator nor linked to the task, the layered
  `CompleteTask` reports that they are not authorized before it looks at the
  completion flag. The legacy `Complete` checks the receiver's flag first.

## Model

| member | source | states |
|---|---|---|
| Errors.NewAppError | pkg/utils/errors.go:26-45 | the message is the error text when non-empty, otherwise the wrapped error's text, and there is no text (a nil dereference) when both are missing; unwrapping gives back exactly the stored error |
| Errors.WrapError | pkg/utils/errors.go:78-80 | the text is `message + ": " + inner text`, and unwrapping gives the inner error |
| Store.LinkUsersOutcome | internal/adapter/repository/task_repository.go:52-70 | linking a fresh task's users succeeds exactly when every listed user exists and none is listed twice, and then adds one pair per listed user; a missing user or a repeated pair is the failure reported |
| Store.LinkUsersFailureKind | internal/adapter/repository/task_repository.go:52-70 | with no user listed twice, only a missing user can make linking fail; with every listed user existing, only a repeated one can |
| Store.LinkUsersFailureNames | models/task.go:132-149 | a failed link names a listed user: one that is missing, or an existing one listed twice |
| Store.LinkUsersPrefixFailure | models/task.go:133-149 | the loop stops at the first failure: once a prefix fails, the whole list fails the same way |
| Store.Database.Select | internal/adapter/repository/task_repository.go:263-328 | a filtered select returns every matching row exactly once, ordered by `created_at` descending |
| Entity.NewTask | internal/domain/entity/task.go:31-45 | an empty title is refused with its message; otherwise an open task of the creator, with no assignee or users, stamped `now` |
| Entity.Task.Complete | internal/domain/entity/task.go:48-56 | completing an already completed task fails and does not touch `updatedAt`; otherwise it succeeds and stamps `now`; afterwards the task is completed either way |
| Entity.Task.CanBeModifiedBy | internal/domain/entity/task.go:59-73 | true exactly for the creator and for users in the loaded `users` relation |
| Entity.Task.AssignTo | internal/domain/entity/task.go:76-79 | the primary assignee becomes `userId` and `updatedAt` becomes `now`; the relation and the other fields are untouched |
| Entity.Task.AddUser | internal/domain/entity/task.go:82-92 | a user whose UUID is already in the relation is ignored; otherwise it is appended and `updatedAt` is stamped; UUIDs that were distinct stay distinct |
| Entity.NewUser | internal/domain/entity/user.go:26-40 | an empty name, email or password hash is refused with the shared message; otherwise a user holding exactly the given fields |
| Entity.User.UpdateName | internal/domain/entity/user.go:43-51 | an empty name is refused and nothing changes; otherwise the name and `updatedAt` are replaced |
| Entity.User.UpdateEmail | internal/domain/entity/user.go:54-62 | an empty email is refused and nothing changes; otherwise the email and `updatedAt` are replaced |
| Entity.User.UpdatePassword | internal/domain/entity/user.go:65-73 | an empty hash is refused and nothing changes; otherwise the password and `updatedAt` are replaced |
| Repository.CreateEffect | internal/adapter/repository/task_repository.go:26-83 | creation is all-or-nothing: it succeeds exactly when every listed user exists and none is repeated (otherwise no-rows or duplicate-key and an unchanged store); the row is stored, one pair per listed user is linked, and the primary pointer is written only when users were listed |
| Repository.TaskRepository.Create | internal/adapter/repository/task_repository.go:26-83 | the insert loop leaves the store that `CreateEffect` describes |
| Repository.LinkEach | internal/adapter/repository/task_repository.go:53-70 | the per-user loop of lookups and inserts computes `LinkUsers`, stopping at the first missing user or repeated link |
| Repository.TaskRepository.GetByUUID | internal/adapter/repository/task_repository.go:86-148 | an unknown task gives no-rows; otherwise the loaded entity mirrors its row, with the creator and primary assignee resolved when they exist and the relation holding exactly the task's existing linked users, each once |
| Repository.TaskRepository.LoadAssignees | internal/adapter/repository/task_repository.go:134-145 | the loaded relation is fresh and holds a summary of each existing linked user of the task, each once, and of no one else |
| Repository.UpdateEffect | internal/adapter/repository/task_repository.go:218-238 | only title, description, completed, `updated_at` and the primary pointer of that one row are written; the creator and every other row are untouched |
| Repository.TaskRepository.Update | internal/adapter/repository/task_repository.go:218-238 | the write leaves the store that `UpdateEffect` describes |
| Repository.DeleteEffect | internal/adapter/repository/task_repository.go:241-260 | an unknown task gives no-rows and nothing changes; otherwise the task row goes and the links stay |
| Repository.TaskRepository.Delete | internal/adapter/repository/task_repository.go:241-260 | the delete leaves the store that `DeleteEffect` describes |
| Repository.AssignEffect | internal/adapter/repository/task_repository.go:399-459 | it succeeds exactly when the task and the user exist; the pair is then present (inserted only if missing) and the primary pointer names the user |
| Repository.AssignIdempotent | internal/adapter/repository/task_repository.go:439-452 | assigning the same user twice gives the same outcome as assigning once |
| Repository.TaskRepository.AssignTaskToUser | internal/adapter/repository/task_repository.go:399-459 | the transaction leaves the store that `AssignEffect` describes |
| Repository.CompleteEffect | internal/adapter/repository/task_repository.go:462-488 | an unknown task gives no-rows and a completed one the already-completed error; otherwise only the `completed` column becomes true |
| Repository.CompleteTwiceFails | internal/adapter/repository/task_repository.go:462-488 | after a successful completion, a second one fails and changes nothing |
| Repository.TaskRepository.CompleteTask | internal/adapter/repository/task_repository.go:462-488 | the write leaves the store that `CompleteEffect` describes |
| Repository.AddUserEffect | internal/adapter/repository/task_repository.go:491-536 | it succeeds exactly when both exist and the pair is absent, adding exactly one pair; an existing pair is refused; the primary pointer never moves |
| Repository.TaskRepository.AddUserToTask | internal/adapter/repository/task_repository.go:491-536 | the insert leaves the store that `AddUserEffect` describes |
| Repository.TaskRepository.GetTasksCreatedByUser | internal/adapter/repository/task_repository.go:263-328 | every task the user created, once each, newest first |
| Repository.TaskRepository.GetTasksAssignedToUser | internal/adapter/repository/task_repository.go:331-396 | every task whose primary pointer is the user, once each, newest first; links alone do not count |
| Repository.InsertUserEffect | internal/adapter/repository/user_repository.go:25-50 | the unique index refuses an email already held (duplicate key, store unchanged); otherwise the row is added |
| Repository.UserRepository.Create | internal/adapter/repository/user_repository.go:25-50 | the insert leaves the store that `InsertUserEffect` describes |
| Repository.UserRepository.GetByUUID | internal/adapter/repository/user_repository.go:53-79 | an unknown user gives no-rows; otherwise a fresh entity with every column of the row |
| Repository.UserRepository.GetByEmail | internal/adapter/repository/user_repository.go:82-108 | an unused email gives no-rows; otherwise the entity of the user holding it |
| Repository.UpdateUserEffect | internal/adapter/repository/user_repository.go:142-161 | taking an email held by another user is refused with duplicate key; otherwise only that user's name, email, password and `updated_at` change |
| Repository.UserRepository.Update | internal/adapter/repository/user_repository.go:142-161 | the write leaves the store that `UpdateUserEffect` describes |
| Repository.DeleteUserEffect | internal/adapter/repository/user_repository.go:164-183 | an unknown user gives no-rows; otherwise the user row goes |
| Repository.UserRepository.Delete | internal/adapter/repository/user_repository.go:164-183 | the delete leaves the store that `DeleteUserEffect` describes |
| Repository.UserRepository.EmailExists | internal/adapter/repository/user_repository.go:186-191 | true exactly when some user holds the email |
| Service.CreateTaskOutcome | internal/domain/service/task_service.go:27-36 | an unknown creator is refused before anything is written; otherwise the repository's all-or-nothing creation, which keeps the creator and the store invariant |
| Service.TaskService.CreateTask | internal/domain/service/task_service.go:27-36 | the store afterwards is the one `CreateTaskOutcome` describes, and it stays well-formed |
| Service.TaskService.GetTaskByUUID | internal/domain/service/task_service.go:39-41 | the repository's load: no-rows for an unknown task, otherwise an entity mirroring the row |
| Service.AssignTaskOutcome | internal/domain/service/task_service.go:59-79 | the guards run in order: task not found, then only the creator assigns, then user not found; success holds exactly when all three pass and adds the pair and moves the primary pointer; no guard failure changes the store |
| Service.TaskService.AssignTask | internal/domain/service/task_service.go:59-79 | the store afterwards is the one `AssignTaskOutcome` describes |
| Service.CompleteTaskOutcome | internal/domain/service/task_service.go:82-100 | the guards run in order: task not found, then not authorized (neither the creator nor an existing linked user), then already completed; success sets `completed` and `updatedAt` and nothing else |
| Service.TaskService.CompleteTask | internal/domain/service/task_service.go:82-100 | the store afterwards is the one `CompleteTaskOutcome` describes |
| Service.DeleteTaskOutcome | internal/domain/service/task_service.go:103-117 | an unknown task is not found; anyone but the creator is refused and the task stays; the creator's delete removes the row |
| Service.TaskService.DeleteTask | internal/domain/service/task_service.go:103-117 | the store afterwards is the one `DeleteTaskOutcome` describes |
| Service.CreateUserOutcome | internal/domain/service/user_service.go:25-37 | an email already held is refused by the pre-check with "email already registered" and nothing changes; otherwise the user is added and emails stay unique |
| Service.UserService.CreateUser | internal/domain/service/user_service.go:25-37 | the store afterwards is the one `CreateUserOutcome` describes |
| Service.UserService.GetUserByEmail | internal/domain/service/user_service.go:40-42 | the repository's lookup: no-rows for an unused email, otherwise the holder |
| Service.UserService.GetUserByUUID | internal/domain/service/user_service.go:45-47 | the repository's lookup: no-rows for an unknown user, otherwise its entity |
| Service.UpdateUserOutcome | internal/domain/service/user_service.go:55-71 | an unknown user is refused; a non-empty email held by a different user is refused; otherwise only that user's row changes, and emails stay unique |
| Service.UserService.UpdateUser | internal/domain/service/user_service.go:55-71 | the store afterwards is the one `UpdateUserOutcome` describes |
| Service.DeleteUserOutcome | internal/domain/service/user_service.go:74-82 | an unknown user is refused and nothing is deleted; otherwise the user row goes |
| Service.UserService.DeleteUser | internal/domain/service/user_service.go:74-82 | the store afterwards is the one `DeleteUserOutcome` describes |
| Presenter.SummaryOf | internal/adapter/presenter/user_presenter.go:33-43 | a summary carries the user's UUID, name and email |
| Presenter.TaskDTO | internal/adapter/presenter/task_presenter.go:17-64 | the response copies the task's columns; `assignedTo` is absent exactly when the task has none; `users` has one summary per relation entry, in the same order |
| Presenter.TaskToDTO | internal/adapter/presenter/task_presenter.go:17-64 | a nil task gives nil; otherwise the copying loop yields `TaskDTO` |
| Presenter.TaskToDTOList | internal/adapter/presenter/task_presenter.go:67-86 | a nil list gives an empty list; otherwise one response per task in order, with the zero response for a nil task |
| Presenter.LoadedTaskDTO | internal/adapter/presenter/task_presenter.go:17-64 | a task as the repository loads it is presented with its row's id and completion, its creator (or the zero summary), and exactly its existing linked users, each once |
| Presenter.UserToDTO | internal/adapter/presenter/user_presenter.go:17-30 | nil for a nil user; otherwise UUID, name, email and times, and no password |
| Presenter.UserToSummary | internal/adapter/presenter/user_presenter.go:33-43 | nil for a nil user; otherwise UUID, name and email |
| Presenter.UserToDTOList | internal/adapter/presenter/user_presenter.go:46-65 | a nil list gives an empty list; otherwise one response per user in order, with the zero response for a nil user |
| UseCase.Screen | internal/app/usecase/task_usecase.go:52-68 | every requested id ends up as a complaint or an accepted UUID, and each accepted UUID names an existing user |
| UseCase.ScreenOutcome | internal/app/usecase/task_usecase.go:47-73 | screening is not fail-fast: there is no complaint exactly when every id parses and exists; every bad id's complaint is present; when none fail, the accepted UUIDs are the requested ones, in order |
| UseCase.AssignAll | internal/app/usecase/task_usecase.go:76-81 | the assignment loop never changes the users table |
| UseCase.AssignAllOutcome | internal/app/usecase/task_usecase.go:76-81 | with the creator as requestor and existing users, no assignment fails, every user is linked, and the primary pointer ends at the last one |
| UseCase.AssignAllPrefixFailure | internal/app/usecase/task_usecase.go:76-80 | the loop stops at the first failed assignment |
| UseCase.ParsedPairs | internal/app/usecase/task_usecase.go:52-81 | linking the accepted UUIDs one by one links exactly the requested ids |
| UseCase.CreatedAlone | internal/domain/service/task_service.go:27-36 | a task created with no users by an existing creator is stored exactly as given |
| UseCase.CreateTaskFlow | internal/app/usecase/task_usecase.go:34-92 | an empty title is refused before anything is stored; an unknown creator is refused by the service |
| UseCase.CreateTaskFlowOutcome | internal/app/usecase/task_usecase.go:34-92 | it succeeds exactly when the title is non-empty, the creator exists and every requested id resolves; the task stays stored even when the assignees are refused afterwards; on success exactly the requested users are linked and the primary pointer is the last one |
| UseCase.TaskUseCase.CreateTask | internal/app/usecase/task_usecase.go:34-92 | the store afterwards is the one `CreateTaskFlow` describes; a response comes back exactly on success and lists exactly the task's linked users |
| UseCase.TaskUseCase.CreateAndAssign | internal/app/usecase/task_usecase.go:35-82 | entity construction, the service's creation, the screening and the assignment loop together leave the store that `CreateTaskFlow` describes |
| UseCase.TaskUseCase.ScreenRequested | internal/app/usecase/task_usecase.go:52-68 | the loop of lookups computes `Screen` |
| UseCase.TaskUseCase.AssignEach | internal/app/usecase/task_usecase.go:76-81 | the loop of service calls computes `AssignAll` |
| UseCase.TaskUseCase.CompleteTask | internal/app/usecase/task_usecase.go:143-157 | the service's completion, then a response for the same task showing it completed; nothing comes back on error |
| UseCase.TaskUseCase.AssignTask | internal/app/usecase/task_usecase.go:165-179 | the service's assignment, then a response whose primary assignee is the user and whose users include them |
| UseCase.TaskUseCase.GetTaskByUUID | internal/app/usecase/task_usecase.go:95-104 | a response comes back exactly when the task exists (no-rows otherwise), with the row's title, description and completion, the creator and primary assignee when they exist, and exactly the task's existing linked users |
| UseCase.CreateUserFlow | internal/app/usecase/user_usecase.go:45-72 | a hashing failure is returned as is; it succeeds exactly when hashing works, the entity is valid and the email is free, and then stores the hash, never the password |
| UseCase.UserUseCase.CreateUser | internal/app/usecase/user_usecase.go:45-72 | the store afterwards is the one `CreateUserFlow` describes, and the response carries the new user without a password |
| UseCase.LoginOutcome | internal/app/usecase/user_usecase.go:75-100 | an unknown email and a wrong password give the same error; a token is asked for only after the password matched; matching credentials with a working token always log in, presenting the email's holder with that token |
| UseCase.UserUseCase.Login | internal/app/usecase/user_usecase.go:75-100 | the lookups compute `LoginOutcome` |
| UseCase.UpdateUserFlow | internal/app/usecase/user_usecase.go:127-154 | an unknown user gives no-rows; an existing user is always updated unless the new email is held by someone else; the timestamp moves only when a field changes; the name changes only when a non-empty one is given, the email only when a non-empty different one is given and free; nobody else changes and emails stay unique |
| UseCase.UserUseCase.UpdateUser | internal/app/usecase/user_usecase.go:127-154 | the store afterwards is the one `UpdateUserFlow` describes, and the response is the stored row |
| Models.CompleteOutcome | models/task.go:69-97 | the guards run in order: the receiver already completed, then task not found, then not authorized (neither the creator nor a `user_tasks` row); success sets only `completed` |
| Models.CompletionRightsCompared | models/task.go:90-93 | whoever may complete in the layered path may complete here; the two agree for an existing user; a deleted but still linked user may complete only here |
| Models.Task.Complete | models/task.go:69-97 | the store afterwards is the one `CompleteOutcome` describes; the receiver is reloaded from its row and relation |
| Models.CreateOutcome | models/task.go:99-153 | an empty title is refused, then an unknown creator, before anything is stored; any failure leaves the store unchanged |
| Models.CreateOutcomeProps | models/task.go:99-153 | creation is all-or-nothing and succeeds exactly when the title is non-empty, the creator exists and the listed users exist with none repeated; an unknown user is named in the error; a repeated one trips the composite key |
| Models.Task.ValidateAndCreateTask | models/task.go:99-153 | the store afterwards is the one `CreateOutcome` describes; the receiver gets its UUID and times once the title passes, and its creator once the creator exists |
| Models.DeleteOutcome | models/task.go:155-162 | only the creator's delete succeeds and removes the row; anyone else gets the "only delete your own tasks" error and nothing changes |
| Models.Task.DeleteTask | models/task.go:155-162 | the store afterwards is the one `DeleteOutcome` describes |
| Models.AssignOutcome | models/task.go:186-242 | the guards run in order: only the creator assigns, then an existing pair is refused, then an unknown assignee; success adds exactly one pair and moves the primary pointer |
| Models.ValidateAndAssignTask | models/task.go:186-242 | a nil receiver is refused with nothing changed; otherwise the store becomes what `AssignOutcome` describes, and the receiver's primary pointer moves only on success |
| Models.GetUserTasks | models/task.go:244-270 | the nil UUID is refused; otherwise every task the user created, newest first |
| Models.GetTasksAssignedToUser | models/task.go:291-317 | the nil UUID is refused; otherwise every task whose primary pointer is the user, newest first |
| Models.CreateUserOutcome | models/user.go:30-61 | missing fields are refused first, then a hashing failure, then an email in use; otherwise the user is stored with the hash |
| Models.CreateUser | models/user.go:30-61 | the store afterwards is the one `CreateUserOutcome` describes, and the result is the stored row |
| Models.GetUserByEmail | models/user.go:63-73 | an unused email gives the login error; otherwise the row of the email's one holder |
| Controllers.FirstListed | controllers/task.go:89-93 | no primary assignee for an empty list; otherwise the first listed user |
| Controllers.NewTaskFromRequest | controllers/task.go:66-94 | the request is refused exactly when some listed user is missing; otherwise the record lists the users in request order, duplicates kept, and points at the first |
| Controllers.CreateTask | controllers/task.go:54-99 | a missing listed user ends the request with the store unchanged; otherwise the store becomes what the legacy creation does for the task whose primary assignee is the first listed user |
| Controllers.CreatedWithFirstPrimary | controllers/task.go:89-96 | a valid request stores the first listed user as primary assignee and links every listed user |
| Controllers.CompleteTaskId | controllers/task.go:25-26 | a path with neither the prefix nor the suffix is used as is, and the id is never longer than the path |
| Controllers.CompleteTaskIdRoundTrip | controllers/task.go:25-26 | the id inside `/tasks/<id>/complete` is read back exactly |
| Controllers.ParseAssignPath | controllers/task.go:219-225 | an accepted path yields two slash-free ids, and "assign" is one of its segments |
| Controllers.AssignPathRoundTrip | controllers/task.go:219-225 | the ids inside `/tasks/<task>/assign/<user>` are read back exactly |
| Controllers.AssignPathExtraIgnored | controllers/task.go:219-225 | segments after the user id are ignored |
| Controllers.WrongVerbRefused | controllers/task.go:222-225 | a path whose second segment is not "assign" is refused |
| Controllers.ShortPathRefused | controllers/task.go:222-225 | a path with fewer than three segments is refused |
| Controllers.DeleteStatus | controllers/task.go:125-131 | 403 exactly when the error text equals the creator-only message, 500 for every other error |
| Controllers.DeleteRefusalForbidden | controllers/task.go:125-131 | the legacy delete refusal is answered with 403, and the same refusal wrapped in context is answered with 500 |
| Comparison.PrimaryAssigneeCompared | controllers/task.go:89-93 | for two or more distinct existing users, both create paths succeed with the same links, but the legacy primary assignee is the first user and the layered one the last |
| Comparison.DuplicateAssignmentCompared | internal/adapter/repository/task_repository.go:439-449 | re-assigning a linked user succeeds in the layered service with the links unchanged, and the legacy record refuses it |
| HttpUtils.GetTokenFromRequest | pkg/utils/http_utils.go:25-43 | a non-empty header wins over the cookie and loses one leading "Bearer "; without one, it is returned verbatim; with no header, the cookie's value; otherwise "" |
| HttpUtils.BearerRoundTrip | pkg/utils/http_utils.go:30-32 | a token sent as "Bearer <token>" is read back exactly, whatever the cookie |
| Configuration.Getenv | internal/infrastructure/config/config.go:31 | an unset variable reads as "" |
| Configuration.ParseBool | internal/infrastructure/config/config.go:89-92 | exactly the six spellings of true and the six spellings of false are accepted |
| Configuration.DebugFlag | internal/infrastructure/config/config.go:88-92 | an empty or unparsable `DEBUG` leaves debugging off; it is on exactly when the value is one of the spellings of true |
| Configuration.LoadConfig | internal/infrastructure/config/config.go:26-110 | there is never an error; every variable that is set is read as is; primary names win over legacy ones, which are read only when the primary is empty; defaults are "smtp.gmail.com", "587", "8080", "development" and "info"; `SMTP_FROM` falls back to the resolved SMTP user; debugging is on exactly when `DEBUG` parses as true |
| Configuration.EnvironmentKinds | internal/infrastructure/config/config.go:113-125 | at most one of development, production and test holds, and an unset `ENVIRONMENT` is development |
| Configuration.PrimaryNamesWin | internal/infrastructure/config/config.go:31-41 | setting `DATABASE_URL` and `JWT_SECRET` decides those settings whatever the legacy names hold |
| Masking.MaskConnectionString | cmd/api/main.go:128-133 | under 20 characters gives "***"; otherwise the first ten, "..." and the last ten (23 characters); never more than 23 |
| Masking.MaskConnectionStringHidesMiddle | cmd/api/main.go:128-133 | strings that agree on their first and last ten characters mask alike |
| Masking.MaskString | cmd/api/main.go:136-141 | under 8 characters gives "***"; otherwise the first two, "..." and the last two (7 characters); never more than 7 |
| Masking.MaskStringHidesMiddle | cmd/api/main.go:136-141 | strings that agree on their first and last two characters mask alike |

## Left out

- Soft delete. A delete removes the row from its map, which is what every later query
  sees. The `deleted_at` column is not kept. Soft-deleted rows still occupy the unique
  `email` index; this is not modelled, so a soft-deleted user's email counts as free.
- Timestamps. `time.Now()` is a `now` parameter, and the store invariant says nothing
  about time.
- Fresh UUIDs. `uuid.New()` is an `id` parameter that names no existing row.
- Parsing UUID text. `uuid.Parse` is a `parse` parameter. The library accepts several
  textual forms, and the model does not fix them.
- Password hashing and tokens. bcrypt and JWT are function parameters (`UseCase.Auth`
  and the `hash` parameter of `Models.CreateUser`).
- The welcome email that `UserUseCase.CreateUser` sends from a goroutine. It is
  SMTP I/O, and the result never depends on it.
- Database failures other than missing rows and violated keys: lost connections,
  failed commits, cancelled contexts. Integer surrogate keys are replaced by UUIDs.
- Check-then-insert races. Operations run one at a time.
- Repository.TaskRepository.GetTasksCreatedByUser: returns the selected rows, not
  entities with loaded relations.
- Repository.TaskRepository.GetTasksAssignedToUser: returns the selected rows, not
  entities with loaded relations.
- Models.GetUserTasks: returns the selected rows, without the `Users` relation.
- Models.GetTasksAssignedToUser: returns the selected rows, without the `Users` relation.
- Repository.TaskRepository.GetByUUID: the order in which the relation lists linked
  users is whatever the database returns, so the contract fixes the set and not the
  order.
- Models.Task.Complete: as above, the reloaded `Users` relation is fixed as a set and
  not as an order.
- Nil versus empty slices inside loaded entities are not distinguished. Nil lists given
  to the presenters are modelled with `Option`.
- Masking.MaskConnectionString: Go measures and slices strings in bytes. Here each
  character stands for one byte, so multi-byte text is not modelled.
- Masking.MaskString: characters stand for bytes, as above.
- Configuration.LoadConfig: loading the `.env` file is not modelled. The environment
  map is taken as it stands after that file was merged in.
- The listings and operations that the workflow does not rely on:
  - `GetAll` of both repositories and of the use cases;
  - `models.GetTasks`;
  - `models.GetTasksCreatedByUser`;
  - `models.FetchTaskByUUID`;
  - the `Is*` error predicates.
- HTTP request decoding and response writing in `controllers/task.go` beyond the
  path handling, the assignee list and the delete status.
