# NestJS task management: a Dafny model of its core

This project models three pieces of a small NestJS task-tracking backend:

- **The task-status validation pipe** (`TaskStatusValidationPipe`), module
  `TaskStatusPipe`: a missing or empty `status` is rejected with BadRequest
  "status should not be empty"; a value whose upper-case form is not `OPEN`,
  `IN_PROGRESS` or `DONE` is rejected with BadRequest "`<value>` is not a valid
  status."; any other value is returned exactly as received.
- **The task service** (`TasksService`), module `Tasks`: a class holding the
  task table (a map from id to task row) behind the repository. Lookup throws
  NotFound "Task with id: `<id>` not found" for a missing id; the status update
  reads the row, sets its status and saves only that row; delete removes the
  row and throws the same NotFound when no row was affected. Listing and
  creation are passed to the repository.
- **User sign-up** (`UserRepository.signUp`), module `Auth`: the row is built
  field by field (username, then the salt, then the password hashed with that
  same salt) and saved. A failed save carrying the duplicate-username code
  becomes Conflict "Username already exists"; any other failure becomes
  InternalServerError.

Shared pieces: `Errors` (the exceptions as values: `HttpError`, `Result`,
`Option`) and `TaskStatuses` (the status enumeration).

Modelling choices:

- A thrown exception is an `Err` value; a resolved promise is `Ok`. Async
  calls run one after another.
- bcrypt's `hash` is the `hash` function field of `UserRepository`. Nothing is
  assumed about it. The salt `genSalt` returns is a parameter of `SignUp`.
- Any failure of `save()` that the users table does not itself detect is the
  `fault` parameter of `SignUp`. The table enforces the unique constraint on
  `username` itself. A `fault` may still carry the duplicate-username code for
  a username not yet in the table, as a concurrent insert of the same
  username would; `SignUp` then answers Conflict.
- The duplicate-username code is an abstract constant (`ErrorCode.DuplicateUsername`).
  Every other code is `OtherCode(name)`.
- `toUpperCase` maps only the ASCII letters `a`..`z` (`TaskStatusPipe.ToUpperCase`).
- The repository's `getTasks` is the `query` function field. Its filter
  semantics are not modelled.
- The repository's `createTask` stores the row under a fresh id (`nextId`,
  above every stored id). The new task gets the fixed `initialStatus` chosen at
  construction.
- The code has no owner scoping: no service operation takes a user, so none
  checks ownership. The model follows the code, not a design in which every
  task operation is restricted to its owner.

## Model

| member | source | states |
|---|---|---|
| `TaskStatusPipe.IsValidStatus` | src/tasks/pipes/task-status-validation.pipe.ts:21-23 | a string is valid exactly when it is one of `OPEN`, `IN_PROGRESS`, `DONE` |
| `TaskStatusPipe.AllowListIsTheEnum` | src/tasks/pipes/task-status-validation.pipe.ts:5-9 | the allow-list holds exactly the names of the status enum, no more and no fewer |
| `TaskStatusPipe.ToUpperCase` | src/tasks/pipes/task-status-validation.pipe.ts:15 | upper-casing keeps the length and maps each character on its own (ASCII letters only) |
| `TaskStatusPipe.UpperCaseIdempotent` | src/tasks/pipes/task-status-validation.pipe.ts:15 | upper-casing an upper-cased string changes nothing |
| `TaskStatusPipe.NameIsUpperCase` | src/tasks/pipes/task-status-validation.pipe.ts:5-9 | every allowed status name is its own upper-case form |
| `TaskStatusPipe.Transform` | src/tasks/pipes/task-status-validation.pipe.ts:11-19 | accepted iff present and its upper-case form is allowed; an accepted value is returned unchanged; every rejection is BadRequest; absent or empty gives the emptiness message; otherwise the message quotes the value as received |
| `TaskStatusPipe.EmptyIsCheckedFirst` | src/tasks/pipes/task-status-validation.pipe.ts:12-17 | an absent or empty value gets exactly the emptiness error, whose message differs from the "not a valid status" message of every value |
| `TaskStatusPipe.VerdictDependsOnUpperCase` | src/tasks/pipes/task-status-validation.pipe.ts:15-17 | two non-empty values with the same upper-case form are both accepted or both rejected |
| `TaskStatusPipe.AcceptsEveryCaseVariant` | src/tasks/pipes/task-status-validation.pipe.ts:15-18 | any value whose upper-case form is a status name is accepted and returned as it was |
| `TaskStatusPipe.TransformIdempotent` | src/tasks/pipes/task-status-validation.pipe.ts:18 | feeding an accepted result back into the pipe returns the same result |
| `TaskStatusPipe.TransformLetsLowerCaseThrough` | src/tasks/pipes/task-status-validation.pipe.ts:15-18 | "open" is accepted and handed on as "open", which is not a status name |
| `TaskStatusPipe.ParseStatus` | src/tasks/pipes/task-status-validation.pipe.ts:11-19 | same verdict and same error as the pipe; an accepted value comes back as the status whose name is its upper-case form |
| `TaskStatusPipe.ParseNameRoundTrip` | src/tasks/pipes/task-status-validation.pipe.ts:11-19 | parsing the name of a status gives back that status |
| `TaskStatusPipe.ParsedNameIsAllowed` | src/tasks/pipes/task-status-validation.pipe.ts:18 | what the normalising pipe hands on is always in the allow-list, and parsing it again changes nothing |
| `Tasks.TasksService.constructor` | src/tasks/tasks.service.ts:10-13 | the service starts over the rows the database already holds (each under its own id), with the given repository listing and initial status |
| `Tasks.TasksService.GetTasks` | src/tasks/tasks.service.ts:15-17 | the filter reaches the repository unchanged and its answer is returned as-is; the table is not touched |
| `Tasks.TasksService.GetTaskById` | src/tasks/tasks.service.ts:19-25 | succeeds iff the id is in the table, with the stored row (whose id is the one asked for); otherwise NotFound naming the id; the table is not touched |
| `Tasks.TasksService.CreateTask` | src/tasks/tasks.service.ts:26-28 | a new row under an id not used before, with the given title and description and the repository's initial status; nothing else changes |
| `Tasks.TasksService.UpdateTaskStatusById` | src/tasks/tasks.service.ts:29-34 | on a missing id: NotFound and the table unchanged; otherwise the returned task has the new status and the old id, title and description, and the table differs only in that row |
| `Tasks.TasksService.DeleteTaskById` | src/tasks/tasks.service.ts:35-40 | succeeds iff the id was in the table; NotFound naming the id otherwise; either way the table afterwards is the old table without that id |
| `Tasks.DeleteThenFetch` | src/tasks/tasks.service.ts:19-40 | after a delete, every other row is intact and looking the id up throws NotFound |
| `Tasks.UpdateThenFetch` | src/tasks/tasks.service.ts:19-34 | after a successful status update, a lookup returns the updated task; other rows are intact |
| `Tasks.PatchStatus` | src/tasks/tasks.controller.ts:53-59 | the corrected route: a body the pipe rejects gives the pipe's error and leaves the table alone; an accepted body on a missing id gives NotFound naming the id and leaves the table alone; otherwise the returned task is the old row (same id, title and description) with the status named by the body's upper-case form, and only that row changes (the route as written stores the body unchanged, see Findings) |
| `Auth.SaveErrorToHttp` | src/auth/user.repository.ts:21-26 | a failed save becomes Conflict "Username already exists" exactly when it carries the duplicate code, and InternalServerError otherwise; nothing else is possible |
| `Auth.UserRepository.constructor` | src/auth/user.repository.ts:11-12 | the repository starts over the users rows the database already holds (each under its own username), with the given hash function |
| `Auth.UserRepository.HashPassword` | src/auth/user.repository.ts:30-32 | the result is exactly bcrypt's hash of the password with the salt |
| `Auth.UserRepository.Save` | src/auth/user.repository.ts:20 | a database fault is returned as is; a taken username is rejected with the duplicate code; otherwise the row is inserted; a failed save leaves the table unchanged |
| `Auth.UserRepository.SignUp` | src/auth/user.repository.ts:13-28 | succeeds iff the save does; on success the table gains exactly the row with the given username, the given salt, and the password hashed with that row's own salt; on failure the table is unchanged and the error is Conflict (duplicate code) or InternalServerError (anything else) |
| `Auth.SignUpTwice` | src/auth/user.repository.ts:19-23 | signing up a username that the first call just stored is a Conflict, and the stored row keeps the first password's hash |

## Findings

| source | as written | input that shows it | evidently intended | confidence | as-written member | corrected member |
|---|---|---|---|---|---|---|
| src/tasks/pipes/task-status-validation.pipe.ts:15-18 | the value is checked in upper case but returned as received, so the route passes a string that is not a status name on to a parameter typed as the status enum | `status: "open"` is accepted and reaches the service as `"open"` | return the status whose name is the upper-case form (here `OPEN`) | medium; not executed | `TaskStatusPipe.TransformLetsLowerCaseThrough` | `TaskStatusPipe.ParseStatus` |

The task service takes a `TaskStatus` value. The status-update route
(`Tasks.PatchStatus`) obtains it from `ParseStatus`. `Transform` itself stays as written.

## Left out

- Tasks.PatchStatus: models the status-update route with the corrected pipe (`ParseStatus`). The route as written, which hands the raw body string (for example `"open"`) to the service and saves it as the task's status, is not modelled; the task status here is always one of the three enum members.
- Tasks.TasksService.GetTaskById, Tasks.TasksService.UpdateTaskStatusById, Tasks.TasksService.DeleteTaskById: a rejection of the repository's `findOne`, `save` or `delete` is not modelled. The service catches none of them, so such a rejection would reach the caller (and an update whose save fails leaves the row unchanged). The contracts say what happens when every repository call succeeds, so `r.Ok? <==> id in old(table)` holds only under that assumption.
- Tasks.IntToString: prints every id in decimal digits. A JavaScript number of 1e21 or more would print in exponent form (`1e+21`) in the NotFound message; ids that large are not modelled.
- HTTP routing in `src/tasks/tasks.controller.ts`, and process start-up in `src/main.ts` (configuration, CORS, listening). These are framework wiring.
- Failure of bcrypt's `genSalt` or `hash`. The source does not catch it, so it would escape `signUp` as an unhandled rejection. The model treats both as always succeeding.
- Properties of the hash (injectivity) and the freshness of salts. These belong to bcrypt.
- Full Unicode upper-casing. JavaScript also maps some non-ASCII letters to ASCII ones; for example the dotless `ı` becomes `I`. The model maps only `a`..`z`.
- A `status` body field that is not a string (a number, say). Calling `toUpperCase` on it would throw a TypeError.
- The filter semantics of the repository's `getTasks`, and how the repository picks ids. `task.repository.ts` is not part of this model.
- The value of the duplicate-username error code. The enum file is not part of this model.
- Tasks as entity objects changed in place. A task is a value here, so aliasing between the returned object and other references to it is not modelled.
- Drivers for which `delete` reports no affected count. In JavaScript `undefined < 1` is false, so such a delete would never throw; the model always has a count.
- User ids, and every operation the source shown here lacks. That covers password validation (`validateUserPassword`, `User.validatePassword`), token validation (`JwtStrategy.validate`), and owner-scoped task access.
