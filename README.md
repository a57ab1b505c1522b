# Playingfield core, modelled in Dafny

Playingfield is a small project-management application: a Go back end and a React front end. This project models these parts of it:

- The connection registry at the centre of its real-time layer. This is the WebSocket hub: clients registered by user id, per-project rooms, and bounded outbound buffers that drop a message when they are full.
- The chat gateway. It authorises a project or direct message, stores it, and only then hands it to the hub.
- The in-memory project, message and user repositories that the gateway and its tests run against.
- Task creation and update. Only the owner creates a task; the owner or the current assignee updates one. Every change is logged, and a `TASK_CREATED` or `TASK_UPDATED` notification is broadcast.
- The two bearer-token guards in front of the HTTP API.
- On the front end:
  - the WebSocket hook's parser for colon-separated notifications;
  - the task board's pure helpers: rewriting `user <id>` into e-mails, the rule that shows the Update button, the status columns, and the local assignee edit.

Each Go or TypeScript file of the core is one Dafny module:

| file | module |
|---|---|
| `hub.go` | `Ws` |
| `messages/service.go` | `MessageService` |
| `messages/fake_repository.go` | `MessageRepo` |
| `projects/fake_repository.go` | `ProjectRepo` |
| `user/fake_repository.go` | `UserRepo` |
| `tasks/service.go` | `TaskService` |
| `jwt.go` and `role.go` | `Middleware` |
| `useWebSockets.ts` | `WebSocketHook` |
| `TaskBoard.tsx` | `TaskBoard` |

Shared helpers live in four modules:

- `Wrappers` (`Option`, `Result`);
- `Seqs` (the order-preserving filter behind the repositories' loops);
- `Text` (splitting on a separator, Go's `%d`, UTF-8 bytes);
- `JsText` (JavaScript's `startsWith` and `parseInt`).

The hub, the repositories, the services and the guards change state in place, so they are classes whose methods carry `modifies` clauses. Each of them is proved against:

- a specification function (`BoardOf`, `MembersOf`, `ProjectMessageRefusal`, `UpdateRefusal`, `JwtDecision`, …);
- or an invariant (`Hub.Valid`: every client is stored under its own id, no room is empty, and every room holds only clients of its project).

The front-end helpers are pure functions with lemmas about them.

Three Go panics are preconditions of the client operation that would raise them: closing a closed channel, closing a nil channel, and sending on a closed channel. Verifying the hub therefore shows that a client made by `NewClient` never raises any of them. The WebSocket handler does not use `NewClient`; see "## Findings". The nil dereference in task creation is different: it is an outcome of `TaskService.Service.CreateTask` (`Panicked`), because the form's default input reaches it.

Re-registering a user id replaces the `clients` entry. The earlier client stays in its room, because the source does not remove it. Unregistering that stale client later deletes the replacement's entry, because the check looks only at the user id. `Hub.Register` and `Hub.Unregister` state exactly this behaviour.

The repository's interfaces do not match every call the services make. For example:

- `projects/repository.go` declares neither `ListUsersInProject` nor `UsersShareProject`;
- `tasks/service.go:57` calls `RecordActivity` where the task repository declares `RecordTaskActivity`.

The model follows the function bodies as written, and uses the in-memory repositories. The source has no in-memory task repository. `TaskService.TaskStore` stands in for the Postgres one: like its SQL `UPDATE`, an update keeps the stored project id.

The task service's broadcast is a send on the hub's unbuffered `Broadcast` channel. It is modelled as the hub's `Broadcast` case running at once.

## Model

| member | source | states |
|---|---|---|
| Ws.DeliverKeepsOrder | internal/infrastructure/ws/hub.go:157-162 | a non-blocking send keeps the queued payloads in order, appends the payload exactly when fewer than 256 are queued, and never exceeds 256 |
| Ws.DeliverTimesFills | internal/infrastructure/ws/hub.go:165-176 | k sends of one payload append exactly min(k, free room) copies |
| Ws.RoomUpdatesKeepWellFormed | internal/infrastructure/ws/hub.go:96-119 | joining and leaving a room keep every room non-empty, keyed by a non-zero project id, and holding only that project's clients; after leaving, the client is in no room |
| Ws.Client.constructor | internal/infrastructure/ws/hub.go:42-50 | a new client has its ids, an empty outbound buffer, and open `Send` and `done` channels |
| Ws.Client.TrySend | internal/infrastructure/ws/hub.go:158-161 | the payload is appended iff the buffer holds fewer than 256; the result says whether it was |
| Ws.Client.Receive | internal/infrastructure/ws/hub.go:47 | a reader of the buffered channel gets the oldest payload first, and gets `ok == false` only once the channel is closed and empty |
| Ws.Client.CloseSend | internal/infrastructure/ws/hub.go:67 | closes the outbound channel; it must not already be closed |
| Ws.Client.Literal | internal/interfaces/http/handlers/ws_handler.go:73-78 | the handler's client has its ids and an empty open outbound channel, and no `done` channel |
| Ws.Client.CloseDone | internal/infrastructure/ws/hub.go:122 | closes `done`; it must exist and not already be closed |
| Ws.Client.Shutdown | internal/infrastructure/ws/hub.go:65-78 | closes the outbound channel, then `done` only if it is still open; both end closed; `done` must exist |
| Ws.Hub.constructor | internal/infrastructure/ws/hub.go:31-40 | the new hub is empty, running, and satisfies the registry invariant |
| Ws.Hub.Register | internal/infrastructure/ws/hub.go:91-106 | stores the client under its user id, overwriting any earlier entry; joins it to its project's room (creating the room) iff its project id is non-zero; keeps the invariant |
| Ws.Hub.Unregister | internal/infrastructure/ws/hub.go:108-125 | if the user id is registered: leaves the room, deletes an emptied room, deletes the entry, and closes `done`, which must exist and be open; otherwise nothing changes, so a repeat is a no-op |
| Ws.Hub.Broadcast | internal/infrastructure/ws/hub.go:127-136 | every registered client, in any room or none, is offered the payload with drop-on-full |
| Ws.Hub.SendToUser | internal/infrastructure/ws/hub.go:154-163 | only the client registered under the id is offered the payload; an unknown id is a no-op; the maps are unchanged |
| Ws.Hub.SendToProjectMembers | internal/infrastructure/ws/hub.go:165-176 | each registered client receives as many drop-on-full sends as the list names its id; the maps are unchanged |
| Ws.Hub.BroadcastToProject | internal/infrastructure/ws/hub.go:178-190 | exactly the members of the room are offered the payload; a missing room is a no-op; clients outside the room are untouched |
| Ws.Hub.Cleanup | internal/infrastructure/ws/hub.go:61-86 | provided every registered client has a `done`: every registered client has its outbound channel closed once and `done` closed at most once (no panic); afterwards `clients` and `ProjectRooms` are empty |
| Ws.Hub.Stop | internal/infrastructure/ws/hub.go:138-141 | the stop case cleans up and the hub stops; later register, unregister and broadcast events change nothing |
| Ws.HandlerConnect | internal/interfaces/http/handlers/ws_handler.go:73-80 | the handler registers its literal client; once registered, neither its deferred unregister nor a cleanup can run without closing a nil channel |
| Ws.NewClientSession | internal/infrastructure/ws/hub.go:42-50 | a client made by `NewClient` registers and unregisters without a panic: its entry is removed, its `done` is closed, and the other registrations are kept |
| MessageService.Unauthorized | internal/domain/messages/service.go:56-58 | the refusal for a non-member starts with "unauthorized" |
| MessageService.ProjectMessageRefusal | internal/domain/messages/service.go:35-58 | a project message is accepted iff the project exists, the member list is available and the sender has a membership entry; each failure has its own error text, checked in the source's order |
| MessageService.DirectMessageRefusal | internal/domain/messages/service.go:89-95 | a direct message is accepted iff the shared-project query succeeds and the users share a project; otherwise the query's error, or "you can only message users who share a project with you" |
| MessageService.ProjectMessageLandsOnBoard | internal/domain/messages/service.go:61-70 | a stored project message (project id set, no receiver) extends that project's history by itself and leaves every conversation unchanged |
| MessageService.DirectMessageLandsInConversation | internal/domain/messages/service.go:96-104 | a stored direct message extends its conversation, as either user reads it, by itself and leaves every project history unchanged |
| MessageService.Service.constructor | internal/domain/messages/service.go:18-24 | the service holds the given repositories and hub |
| MessageService.Service.AuthorizeProjectMessage | internal/domain/messages/service.go:35-58 | the lookup, the member fetch and the scan loop over the members compute exactly `ProjectMessageRefusal` |
| MessageService.Service.SendProjectMessage | internal/domain/messages/service.go:33-81 | refused or unstored: an error, nothing stored, no buffer changed. Accepted: the sender is a member; the message is stored with the next id, the project id and no receiver; then exactly the room's members are offered the encoded `new_project_message` envelope once |
| MessageService.Service.GetProjectHistory | internal/domain/messages/service.go:83-85 | returns the project's board |
| MessageService.Service.SendDirectMessage | internal/domain/messages/service.go:88-115 | refused or unstored: an error, nothing stored, no buffer changed. Accepted: the users share a project; the message is stored with the receiver id and no project; then the receiver and the sender (twice for oneself) are offered the same `new_direct_message` envelope, and nobody else |
| MessageService.Service.GetDMHistory | internal/domain/messages/service.go:118-120 | returns the two users' conversation |
| MessageRepo.ConversationSymmetric | internal/domain/messages/fake_repository.go:41-55 | the conversation of a and b equals that of b and a, and holds exactly the stored messages between them that have a receiver |
| MessageRepo.BoardExact | internal/domain/messages/fake_repository.go:31-39 | a board holds exactly the stored messages whose project id is set and equal |
| MessageRepo.BoardsAndConversationsDisjoint | internal/domain/messages/fake_repository.go:31-55 | when no message has both a project and a receiver, no board message is in any conversation |
| MessageRepo.FakeRepository.constructor | internal/domain/messages/fake_repository.go:13-18 | an empty store whose counter starts at 1 |
| MessageRepo.FakeRepository.Create | internal/domain/messages/fake_repository.go:20-29 | the message gets id = counter and e-mail "test@example.com" and is appended; the counter increments, and the new id exceeds every stored id |
| MessageRepo.FakeRepository.GetByProject | internal/domain/messages/fake_repository.go:31-39 | the filtering loop returns the project's board in insertion order |
| MessageRepo.FakeRepository.GetDirectMessages | internal/domain/messages/fake_repository.go:41-55 | the filtering loop returns the conversation in insertion order, skipping messages without a receiver |
| ProjectRepo.Lookup | internal/domain/projects/fake_repository.go:64-72 | finds a project iff one with that id is stored, and the one found has that id |
| ProjectRepo.OwnedByExact | internal/domain/projects/fake_repository.go:54-62 | the owner's list holds exactly the projects with that owner, and later projects come after earlier ones |
| ProjectRepo.MembersOfExact | internal/domain/projects/fake_repository.go:100-113 | the member list names a user iff that user has an entry for the project, with one row per entry |
| ProjectRepo.SharesProjectIsOverlap | internal/domain/projects/fake_repository.go:125-142 | two users share a project iff their project-id sets intersect; hence the relation is symmetric |
| ProjectRepo.FakeRepository.constructor | internal/domain/projects/fake_repository.go:22-28 | empty tables, with the counter at 1 |
| ProjectRepo.FakeRepository.CreateProject | internal/domain/projects/fake_repository.go:30-40 | the project gets id = counter, larger than every stored id, and is appended; the counter increments; ids stay strictly increasing |
| ProjectRepo.FakeRepository.Update | internal/domain/projects/fake_repository.go:42-52 | succeeds iff the id is stored; then only records with that id are replaced and the rest are kept; otherwise an error and no change |
| ProjectRepo.FakeRepository.GetAllByOwner | internal/domain/projects/fake_repository.go:54-62 | returns the owner's projects in insertion order |
| ProjectRepo.FakeRepository.GetByID | internal/domain/projects/fake_repository.go:64-72 | returns the first project with the id, or "project not found" |
| ProjectRepo.FakeRepository.DeleteProject | internal/domain/projects/fake_repository.go:74-83 | succeeds iff a project matches both the id and the owner, and splices it out; otherwise "project not found" and no change |
| ProjectRepo.FakeRepository.AddUserToProject | internal/domain/projects/fake_repository.go:85-98 | fails without change when the project is missing; otherwise appends exactly one entry, duplicates allowed |
| ProjectRepo.FakeRepository.ListUsersInProject | internal/domain/projects/fake_repository.go:100-113 | returns one member row per entry for the project, in insertion order |
| ProjectRepo.FakeRepository.RemoveUserFromProject | internal/domain/projects/fake_repository.go:115-123 | succeeds iff a matching entry exists, and removes only the first one; otherwise an error and no change |
| ProjectRepo.FakeRepository.UsersShareProject | internal/domain/projects/fake_repository.go:125-142 | the two loops (collect a's projects, then look for b's entry in them) return true iff the users share a project |
| UserRepo.StoredKeepsStoreWellFormed | internal/domain/user/fake_repository.go:21-44 | storing an account whose e-mail is free keeps ids positional and e-mails unique; the account keeps every field the caller set except its id, and an empty role or status gets "user" or "active" |
| UserRepo.RowsOfAppend | internal/domain/user/fake_repository.go:56-67 | the listing of a grown store is the old listing followed by the rows of the new accounts |
| UserRepo.RowsOfWellFormed | internal/domain/user/fake_repository.go:56-67 | in a well-formed store the listing's ids are the positions and no e-mail is listed twice |
| UserRepo.FakeRepository.constructor | internal/domain/user/fake_repository.go:15-19 | an empty store |
| UserRepo.FakeRepository.Create | internal/domain/user/fake_repository.go:21-44 | on any store: fails with "user already exists" and no change iff the e-mail is taken; otherwise appends `Stored(u, len)`; a store with unique e-mails and positional ids stays so |
| UserRepo.FakeRepository.GetByEmail | internal/domain/user/fake_repository.go:46-54 | on any store: the first account with that e-mail, or "invalid credentials" iff there is none; in a well-formed store it is the only one |
| UserRepo.FakeRepository.ListUsers | internal/domain/user/fake_repository.go:56-67 | the loop returns `Rows` of the store |
| TaskService.CreateRefusal | internal/domain/tasks/service.go:34-48 | a creation proceeds iff the project exists, the requester owns it, and the insert does not fail; a missing project or a non-owner gives the source's error |
| TaskService.UpdateRefusal | internal/domain/tasks/service.go:73-96 | an update proceeds iff the task and its project exist, the requester is the owner or the current non-nil assignee, and the write does not fail; otherwise "unauthorized: you are not the owner or the assigned member" |
| TaskService.CreatedFields | internal/domain/tasks/service.go:63-66 | `TASK_CREATED:<p>` splits on ':' into the tag and the printed project id |
| TaskService.UpdatedFields | internal/domain/tasks/service.go:107-110 | `TASK_UPDATED:<p>:<t>` splits on ':' into the tag and the two printed ids |
| TaskService.FindTask | internal/infrastructure/postgres/task_repository.go:72-78 | finds a task iff one with that id is stored, and the one found has that id |
| TaskService.TaskStore.constructor | internal/infrastructure/postgres/task_repository.go:16-21 | an empty table and log, with the counter at 1 |
| TaskService.TaskStore.CreateTask | internal/infrastructure/postgres/task_repository.go:23-44 | the task is appended under the next id; ids stay unique and increasing |
| TaskService.TaskStore.GetTaskByID | internal/infrastructure/postgres/task_repository.go:72-78 | the stored task with the id, or the driver's no-rows error |
| TaskService.TaskStore.UpdateTask | internal/infrastructure/postgres/task_repository.go:46-66 | succeeds iff the id is stored; that row is overwritten with the new fields and its old project id, and every other row is kept |
| TaskService.TaskStore.RecordActivity | internal/infrastructure/postgres/task_repository.go:109-116 | appends one history entry |
| TaskService.Service.constructor | internal/domain/tasks/service.go:24-30 | the service holds the given repositories and the optional hub |
| TaskService.Service.Announce | internal/domain/tasks/service.go:63-66 | with a hub, every connected client is offered the notification with drop-on-full; without one, nothing happens |
| TaskService.Service.AuthorizeCreate | internal/domain/tasks/service.go:33-48 | the project fetch and the ownership check compute exactly `CreateRefusal` and change nothing |
| TaskService.RefusalIgnoresAssignee | internal/domain/tasks/service.go:33-48 | the checks before the insert do not depend on the assignee, so an unassigned task is stored whenever an assigned one would be |
| TaskService.CheckedCreatedDetails | internal/domain/tasks/service.go:55 | the corrected creation entry: with an assignee it is the source's text; without one it is a text no assigned entry can equal |
| TaskService.Service.StoreCreated | internal/domain/tasks/service.go:44-60 | the task is stored under the next id whatever follows; without an assignee the log entry panics and nothing is logged; otherwise CREATED is logged with "Task created and assigned to user <id>", and a log failure returns an error though the task stays stored |
| TaskService.Service.CreateTask | internal/domain/tasks/service.go:32-69 | a refused creation stores, logs and sends nothing and uses no id. An accepted one is stored; without an assignee it then panics, unlogged and unsent. With one, a failed log is an error and nothing is sent; otherwise the task is returned, the requester owns the project, and every client is offered `TASK_CREATED:<project>` |
| TaskService.Service.CreateTaskChecked | internal/domain/tasks/service.go:32-69 | the corrected creation, for any assignee or none: a refusal changes nothing; an accepted task is stored, logged with `CheckedCreatedDetails` and announced to every client, or, when the log fails, returned as an error with the task still stored and nothing sent |
| TaskService.Service.Authorize | internal/domain/tasks/service.go:72-96 | the task fetch, the project fetch and the owner-or-assignee check compute exactly `UpdateRefusal` and change nothing |
| TaskService.Service.ApplyUpdate | internal/domain/tasks/service.go:93-105 | the task is overwritten, keeping its project; UPDATED with "Task updated by user <id>. New Status: <status>" is logged unless the log fails, and a failure is ignored |
| TaskService.Service.UpdateTask | internal/domain/tasks/service.go:71-113 | proceeds iff `UpdateRefusal` is none. A refused update changes, logs and sends nothing. Otherwise the requester may update, only that task is overwritten, the log failure is ignored, and every client is offered `TASK_UPDATED:<project>:<task>` |
| Middleware.JwtDecision | internal/interfaces/http/middleware/jwt.go:15-28 | an empty header is refused with 401 "missing authorization header"; every refusal is 401 |
| Middleware.BearerTokenExact | internal/interfaces/http/middleware/jwt.go:20-23 | the split check passes iff the header is "Bearer " followed by a space-free token, and that token is what gets verified |
| Middleware.JwtAcceptsExactly | internal/interfaces/http/middleware/jwt.go:15-28 | `JWTMiddleware` accepts iff the header is "Bearer <token>", the token is space-free and verifies; the claims are the token's |
| Middleware.RoleDecision | internal/interfaces/http/middleware/role.go:15-33 | without the "Bearer " prefix: 401; a failed verification: 401; acceptance iff the verified role is allowed; a verified role that is not allowed: exactly 403 |
| Middleware.GuardsAgreeOnWellFormedHeaders | internal/interfaces/http/middleware/role.go:15-33 | a header `JWTMiddleware` accepts reaches `RequireRole`'s role check with the same claims |
| Middleware.SpacedTokenSplitsGuards | internal/interfaces/http/middleware/jwt.go:20-23 | the converse fails: "Bearer a b" is a malformed header for `JWTMiddleware`, but `RequireRole` verifies "a b" |
| Middleware.JWTMiddleware | internal/interfaces/http/middleware/jwt.go:12-38 | on acceptance, "user" and "user_id" are stored and `next` runs exactly once with no response written; on refusal, the error response is written, nothing is stored, and `next` does not run |
| Middleware.RequireRole | internal/interfaces/http/middleware/role.go:12-36 | on acceptance, "user" is stored and `next` runs exactly once; on refusal, the error response is written, nothing is stored, and `next` does not run |
| Text.JoinOfSplit | frontend/src/hooks/useWebSockets.ts:31 | splitting on a separator loses no character: joining the fields gives the text back |
| Text.SplitOfJoin | frontend/src/hooks/useWebSockets.ts:36 | fields without the separator come back from a split of their join |
| Text.Utf8OfAscii | internal/domain/tasks/service.go:65 | the bytes of an ASCII notification are its characters, one byte each |
| JsText.ParseIntOfDecimal | frontend/src/hooks/useWebSockets.ts:31 | `parseInt` reads back Go's `%d` of any integer, whatever non-digit follows |
| JsText.ParseIntWithoutDigits | frontend/src/hooks/useWebSockets.ts:37-38 | text without a decimal digit parses to NaN |
| JsText.ParseIntOfUndefined | frontend/src/hooks/useWebSockets.ts:37-38 | a missing field (`undefined`) parses to NaN |
| WebSocketHook.OnUserAdded | frontend/src/hooks/useWebSockets.ts:35-44 | `onUserAdded` fires iff both id fields parse as numbers, with the fourth field as the role |
| WebSocketHook.OnUserRemoved | frontend/src/hooks/useWebSockets.ts:46-54 | `onUserRemoved` fires iff both id fields parse as numbers |
| WebSocketHook.OnMessage | frontend/src/hooks/useWebSockets.ts:22-55 | at most one callback per frame. `onProjectCreated` fires iff the frame is exactly "PROJECT_CREATED". `onProjectDeleted` fires iff a different frame starts with "PROJECT_DELETED:". No callback fires for a frame without a known tag |
| WebSocketHook.OnMessageChecked | frontend/src/hooks/useWebSockets.ts:30-33 | the handler with the NaN check applied to deletions: equal to `OnMessage` except that a deletion without a numeric id fires nothing |
| WebSocketHook.DeletedRoundTrip | frontend/src/hooks/useWebSockets.ts:30-33 | "PROJECT_DELETED:<p>" reaches `onProjectDeleted(p)` under both handlers |
| WebSocketHook.AddedRoundTrip | frontend/src/hooks/useWebSockets.ts:35-44 | "USER_ADDED:<p>:<u>:<role>" with a colon-free role reaches `onUserAdded(p, u, role)` |
| WebSocketHook.RemovedRoundTrip | frontend/src/hooks/useWebSockets.ts:46-54 | "USER_REMOVED:<p>:<u>" reaches `onUserRemoved(p, u)` |
| WebSocketHook.TaskNotificationsIgnored | frontend/src/hooks/useWebSockets.ts:25-54 | the task service's `TASK_CREATED` and `TASK_UPDATED` notifications trigger no callback |
| WebSocketHook.DeletedWithoutNumberFires | frontend/src/hooks/useWebSockets.ts:30-33 | as written, "PROJECT_DELETED:x" calls `onProjectDeleted(NaN)`; the checked handler ignores it |
| TaskBoard.FindMember | frontend/src/components/TaskBoard.tsx:77 | finds a member iff one has the id, and finds the first such member |
| TaskBoard.FormatActivityDetails | frontend/src/components/TaskBoard.tsx:75 | empty details give "" |
| TaskBoard.RenderTokenize | frontend/src/components/TaskBoard.tsx:76 | the global regex scan cuts the text into pieces that put back together give the text |
| TaskBoard.MentionFoundIffPresent | frontend/src/components/TaskBoard.tsx:76 | the scan finds a match iff "user " followed by a digit occurs in the text |
| TaskBoard.FormatWithoutMention | frontend/src/components/TaskBoard.tsx:74-79 | text without "user <digit>" is shown unchanged |
| TaskBoard.MentionOfNatural | frontend/src/components/TaskBoard.tsx:76 | "user <n>" for n ≥ 0 is one match, whose digits read back as n |
| TaskBoard.NoMentionOfNegative | frontend/src/components/TaskBoard.tsx:76 | "user -<n>" holds no match |
| TaskBoard.FormatCreatedDetails | frontend/src/components/TaskBoard.tsx:74-79 | the server's "Task created and assigned to user <id>" is shown with the member's e-mail, or "User <id>" when no member has that id; the rest is unchanged |
| TaskBoard.FormatCreatedDetailsNegative | frontend/src/components/TaskBoard.tsx:74-79 | with a negative id the entry is shown unchanged |
| TaskBoard.CanUpdateMatchesServer | frontend/src/components/TaskBoard.tsx:151 | the button shows iff the user is the owner or the non-null assignee, which is exactly the server's update rule; when signed out only `isOwner` counts |
| TaskBoard.Column | frontend/src/components/TaskBoard.tsx:247 | a column is no longer than the task list |
| TaskBoard.ColumnExact | frontend/src/components/TaskBoard.tsx:247 | a column holds exactly the tasks with its status |
| TaskBoard.ThreeColumnsPartition | frontend/src/components/TaskBoard.tsx:242-247 | three distinct statuses split a list of tasks having only those statuses, each task as many times as it occurs (a multiset partition) |
| TaskBoard.ColumnsPartition | frontend/src/components/TaskBoard.tsx:242-247 | the TODO, IN_PROGRESS and DONE columns partition the tasks whose status is one of them |
| TaskBoard.UnknownStatusHidden | frontend/src/components/TaskBoard.tsx:242-247 | a task with any other status is in no column |
| TaskBoard.ReplaceFirst | frontend/src/components/TaskBoard.tsx:245 | a one-character replacement keeps the length |
| TaskBoard.ReplaceFirstAbsent | frontend/src/components/TaskBoard.tsx:245 | text without the character is unchanged |
| TaskBoard.ReplaceFirstAt | frontend/src/components/TaskBoard.tsx:245 | only the first occurrence is replaced; what follows it, later occurrences included, is kept |
| TaskBoard.Headings | frontend/src/components/TaskBoard.tsx:242-246 | the headings read "TODO", "IN PROGRESS", "DONE" |
| TaskBoard.SelectedAssigneeOfOption | frontend/src/components/TaskBoard.tsx:188 | the change handler reads back the choice an option stands for: "" is unassigned, and a printed id is that id |
| TaskBoard.AssignChangesOnlyAssignee | frontend/src/components/TaskBoard.tsx:189 | the edit changes only `assigned_to`, only of the task with the edited id; other tasks and fields and the order are kept; repeating the edit changes nothing |
| TaskBoard.AssignKeepsColumns | frontend/src/components/TaskBoard.tsx:187-190 | the edit moves no task between columns: each column after the edit is the column before it, edited |

## Left out

- Goroutines, channels as concurrent objects, `sync.RWMutex` and the scheduling of the `select`. Each case of `Hub.Run` is one atomic method, and interleavings are not modelled.
- A send on the hub's unbuffered `Broadcast`, `Register` or `Unregister` channel blocks forever once `Run` has returned. The model makes those events no-ops on a stopped hub instead.
- `websocket.Conn`, `Close` and the read and write pumps are I/O. `Client.Receive` models only how the writer drains the `Send` channel. The rest of the WebSocket handler is not modelled. Its `Client` literal is (`Ws.Client.Literal`), because it has no `done`: `NewClient` is called nowhere, so every client the server registers would panic on its first unregister or in a cleanup (see "## Findings").
- Ws.Hub.Cleanup clears `clients` after closing every client, where the source deletes each entry inside the loop. The final state is the same; the order of deletions is not modelled.
- `json.Marshal` of the message envelopes is the function parameter `encode`. Payloads are opaque bytes.
- Token signing and verification belong to the JWT library. `VerifyToken` is the function parameter `verify`. Token expiry and the registered claims are not modelled.
- Failures only a database can produce are explicit `Option<string>` inputs:
  - the member list or shared-project query failing;
  - the message insert failing;
  - the task insert, update or history write failing.
  The in-memory repositories never fail that way.
- The Postgres repositories, SQL and sqlc are not part of this model. `TaskStore` stands in for the task repository: in particular, the empty description stored as NULL and the database's row ids and timestamps are not modelled.
- `time.Now`, `CreatedAt` and `UpdatedAt` are clock effects and are left out.
- TaskService.Service.CreateTask: the panic at `service.go:55` is the outcome `Panicked`. This is the board's default path: the create form's "Assign to..." option sends `assigned_to: null` (`TaskBoard.tsx:41`, `89`, `228-229`), and the handler and the repository accept it (`task_handler.go:28`, `task_repository.go:24`). What follows the panic is not modelled: no `Recover` middleware is installed, so net/http recovers it and drops the request's connection. See "## Findings".
- HTTP handlers, routes, `projects/service.go`, `user/service.go` and the React components other than the modelled helpers are request plumbing or UI, and are left out.
- JavaScript numbers are doubles; the model's are exact integers, so `parseInt` of more than about 15 digits and `Number` rounding are not captured. `Number(e.target.value)` is modelled as `parseInt`, which agrees with it on the option values, which are printed ids.
- The React state hooks (`setTasks`, `members`, `currentUserId`), the 150 ms reconnect timer and the fetch calls are UI and I/O; the helpers take their inputs as parameters.
- TaskBoard.FormatActivityDetails: the rewriting of the update entry ("Task updated by user <id>. New Status: <status>") is not stated separately. Only the creation entry, text without a match, and the general scan properties are proved.

## Findings

| source | as written | input that shows it | evidently intended | confidence | as-written member | corrected member |
|---|---|---|---|---|---|---|
| frontend/src/hooks/useWebSockets.ts:30-33 | a `PROJECT_DELETED:` frame calls `onProjectDeleted` with whatever `parseInt` returns, NaN included | "PROJECT_DELETED:x" calls `onProjectDeleted(NaN)` | the `isNaN` guard the two user notifications apply (lines 41 and 51), so a deletion without a numeric id is ignored | low, not executed | WebSocketHook.OnMessage | WebSocketHook.OnMessageChecked |
| internal/domain/tasks/service.go:55 | the CREATED log entry reads `*createdTask.AssignedTo` without a nil check, after the insert at line 45 | creating a task with "Assign to..." left selected, which sends `assigned_to: null` (`TaskBoard.tsx:89`): the task is stored, then the service panics, so it is never logged or announced | tasks may be created unassigned (`task_handler.go:28`, `task_repository.go:24`), so the entry is written from the optional assignee | high, not executed | TaskService.Service.CreateTask | TaskService.Service.CreateTaskChecked |
| internal/interfaces/http/handlers/ws_handler.go:73-78 | the handler builds its client as a literal without `done`, so `done` is nil; `close(client.done)` at hub.go:122, and the `default` branch of hub.go:74-77 (a receive from a nil channel never fires), close a nil channel, which panics | any connection that registers and then disconnects, or is still registered at a hub cleanup | build the client with `NewClient` (hub.go:42-50), which makes `done` | high, not executed | Ws.HandlerConnect | Ws.NewClientSession |
