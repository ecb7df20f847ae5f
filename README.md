# KaamSetu task marketplace: a Dafny model of its core

KaamSetu ("MyHelper") is a local-services marketplace. A *seeker* posts a
task, such as a plumbing job with a budget and an urgency. *Workers* apply
for it. The owner accepts one application and then marks the task
completed, which credits the hired worker with one completed task. This
project models the core of the back end and one front-end module:

- **Task lifecycle** (`service/TaskService.java`): listing with filters,
  lookup, creation, applying, accepting an application, completing, the
  "my posted tasks" and "my applied tasks" views, and the mapping of rows
  to response bodies. Modules `TaskQueries` and `TaskService`.
- **Authentication** (`service/AuthService.java`): registration and login.
  Module `AuthService`.
- **Records and request bodies** (`entity/Task.java`,
  `entity/Application.java`, `dto/TaskRequest.java`,
  `dto/RegisterRequest.java`): builder defaults, column limits and
  validation constraints. Modules `Entities` and `Requests`.
- **Persistence**: the three repositories form one `Database.Store` class.
  Its fields `tasks`, `applications` and `users` are tables of rows. Row
  `i` has id `i + 1`, as IDENTITY ids give when nothing is deleted and a
  refused insert uses up no id. A logical `clock` stands behind
  `LocalDateTime.now()`. Saving runs the
  entity hooks (`@PrePersist`, `@PreUpdate`) and refuses rows that break a
  column limit. Every method keeps `Valid()`: ids in order, foreign keys
  resolve, timestamps are set and never ahead of the clock, tasks were
  created in id order, and phones are unique.
- **Lifecycle rules** (module `Lifecycle`):
  - an OPEN task has no accepted worker and only PENDING applications;
  - an ACCEPTED or COMPLETED task has exactly one ACCEPTED application,
    and its worker is the task's accepted worker;
  - no worker applies twice to one task.

  Every state-changing service method is proved to keep these rules.
- **Display helpers** (`src/utils/helpers.js`): relative time, the urgency
  and status badges, category icons and truncation. Module `Helpers`.

Each service method is an imperative `method` over the store. Its
`ensures` gives the new tables as a function of the old ones, and gives
the outcome (success, or the exact exception) as a specification
function of the inputs. Those functions carry their own properties. For
example, the rejection function is `None` exactly when every check of the
source passes, and checks are taken in the source's order. Lemmas then
relate several operations to one another.

Behaviour worth noting:

- `getAllTasks` lists tasks of every status. Its category, urgency and
  status filters ignore case.
- Every refusal is a `BadRequestException` or a
  `ResourceNotFoundException`, each with its own message; the model keeps
  the messages.
- `acceptApplication` does not check that the chosen application is
  PENDING. `Lifecycle.ApplicationOfOpenTaskIsPending` proves the check is
  not needed: every application of an OPEN task is PENDING.
- The "applied tasks" view maps each of the worker's applications, in the
  order `findByWorker` returns them, to its task. The `.distinct()` there
  never removes anything (`TaskQueries.AppliedTasksNeedNoDedup`).

## Model

| member | source | states |
|---|---|---|
| Entities.UrgencyValueOf | Backend/kaamsetu-backend/src/main/java/com/kaamsetu/service/TaskService.java:65 | `valueOf` matches a constant's name exactly: `None` exactly when no urgency has that name, and otherwise the constant bearing it |
| Entities.RoleValueOf | Backend/kaamsetu-backend/src/main/java/com/kaamsetu/service/AuthService.java:33 | the same for roles |
| Entities.UrgencyNameRoundTrip | Backend/kaamsetu-backend/src/main/java/com/kaamsetu/service/TaskService.java:241 | every urgency's `name()` parses back to that urgency |
| Entities.RoleNameRoundTrip | Backend/kaamsetu-backend/src/main/java/com/kaamsetu/service/AuthService.java:71 | every role's `name()` parses back to that role |
| Entities.BuildTask | Backend/kaamsetu-backend/src/main/java/com/kaamsetu/entity/Task.java:41-64 | a built task has the OPEN default status unless one is given; it has no accepted worker, no id and no timestamps; title, description, category, budget, urgency, location and owner are the given ones |
| Entities.BuildApplication | Backend/kaamsetu-backend/src/main/java/com/kaamsetu/entity/Application.java:15-40 | a built application is PENDING by default; it has no id and no `appliedAt`; task, worker, message and proposed budget are the given ones |
| Requests.NewTaskRequest | Backend/kaamsetu-backend/src/main/java/com/kaamsetu/dto/TaskRequest.java:23-25 | a body without urgency gets "NORMAL"; a body without location has none |
| Requests.TaskRequestViolations | Backend/kaamsetu-backend/src/main/java/com/kaamsetu/dto/TaskRequest.java:10-21 | no violation exactly when title, description and category are not blank and the budget is present and at least 1; a blank title and a budget below 1 each report their message |
| Requests.NewRegisterRequest | Backend/kaamsetu-backend/src/main/java/com/kaamsetu/dto/RegisterRequest.java:26 | a body without skills gets the empty list |
| Requests.RegisterRequestViolations | Backend/kaamsetu-backend/src/main/java/com/kaamsetu/dto/RegisterRequest.java:12-23 | no violation exactly when the four strings are not blank, the phone has exactly 10 characters and the password at least 6; a wrong phone length and a short password each report their message |
| Text.ToUpper | Backend/kaamsetu-backend/src/main/java/com/kaamsetu/service/AuthService.java:33 | `toUpperCase` keeps the length and upper-cases every letter, char by char |
| Text.ToLower | Backend/kaamsetu-backend/src/main/java/com/kaamsetu/service/TaskService.java:45 | `toLowerCase` keeps the length and lower-cases every letter, char by char |
| Text.EqualsIgnoreCaseIffLowerEqual | Backend/kaamsetu-backend/src/main/java/com/kaamsetu/service/TaskService.java:38-43 | `equalsIgnoreCase` holds exactly when the lower-cased strings are equal |
| Text.ToUpperIsNameIffEqualsIgnoreCase | Backend/kaamsetu-backend/src/main/java/com/kaamsetu/service/AuthService.java:33 | for an all-capitals name, `s.toUpperCase()` equals it exactly when `s` equals it ignoring case |
| Text.Contains | Backend/kaamsetu-backend/src/main/java/com/kaamsetu/service/TaskService.java:45-46 | `contains` holds exactly when the needle occurs at some position |
| Text.DecimalText | Backend/kaamsetu-backend/src/main/java/com/kaamsetu/service/TaskService.java:56 | a number is rendered as decimal digits without a leading zero whose value is the number |
| Text.ContainsLowerIsContainsIgnoreCase | Backend/kaamsetu-backend/src/main/java/com/kaamsetu/service/TaskService.java:44-46 | searching the lower-cased text for the lower-cased needle is a case-insensitive substring search |
| Database.FindTaskById | Backend/kaamsetu-backend/src/main/java/com/kaamsetu/service/TaskService.java:55 | `findById` finds a row exactly when one has that id, and then it is that row |
| Database.FindApplicationById | Backend/kaamsetu-backend/src/main/java/com/kaamsetu/service/TaskService.java:141-142 | the same for applications |
| Database.FindUserById | Backend/kaamsetu-backend/src/main/java/com/kaamsetu/service/TaskService.java:200-201 | the same for users |
| Database.FindAllByOrderByCreatedAtDesc | Backend/kaamsetu-backend/src/main/java/com/kaamsetu/repository/TaskRepository.java:12 | the listing holds every task exactly as often as the table does |
| Database.FindByCreatedByOrderByCreatedAtDesc | Backend/kaamsetu-backend/src/main/java/com/kaamsetu/repository/TaskRepository.java:13 | a task is listed exactly when it is stored and was created by the owner |
| Database.FindByTask | Backend/kaamsetu-backend/src/main/java/com/kaamsetu/repository/ApplicationRepository.java:13 | an application is returned exactly when it is stored and is for the task; the result is a subsequence of the table |
| Database.FindByWorker | Backend/kaamsetu-backend/src/main/java/com/kaamsetu/repository/ApplicationRepository.java:14 | an application is returned exactly when it is stored and is the worker's; the result is a subsequence of the table |
| Database.ExistsByTaskAndWorker | Backend/kaamsetu-backend/src/main/java/com/kaamsetu/repository/ApplicationRepository.java:15 | holds exactly when some application of the task is the worker's |
| Database.FindUserByPhone | Backend/kaamsetu-backend/src/main/java/com/kaamsetu/service/AuthService.java:57-58 | `findByPhone` is empty exactly when no user has the phone; otherwise it returns a stored user with that phone |
| Database.FindUserByPhoneUnique | Backend/kaamsetu-backend/src/main/java/com/kaamsetu/service/AuthService.java:57 | when phones are unique, the user found by a phone is the one holding it |
| Database.NewestFirstIsSorted | Backend/kaamsetu-backend/src/main/java/com/kaamsetu/repository/TaskRepository.java:12 | `findAllByOrderByCreatedAtDesc` is sorted newest first and is a permutation of the table |
| Database.Store.Now | Backend/kaamsetu-backend/src/main/java/com/kaamsetu/entity/Task.java:68 | each reading of the clock is later than every earlier one |
| Database.Store.InsertTask | Backend/kaamsetu-backend/src/main/java/com/kaamsetu/entity/Task.java:28-70 | saving a new task refuses a description over 1000 characters, changing nothing; otherwise it appends the row with the next id and both timestamps at the current time |
| Database.Store.UpdateTask | Backend/kaamsetu-backend/src/main/java/com/kaamsetu/entity/Task.java:61-75 | saving a changed task replaces its row; `createdAt` is kept and `updatedAt` moves to the current time |
| Database.Store.InsertApplication | Backend/kaamsetu-backend/src/main/java/com/kaamsetu/entity/Application.java:30-45 | saving a new application refuses a message over 500 characters; otherwise it appends the row with the next id and `appliedAt` now |
| Database.Store.UpdateApplication | Backend/kaamsetu-backend/src/main/java/com/kaamsetu/entity/Application.java:39-40 | saving a changed application replaces its row but keeps `appliedAt` |
| Database.Store.InsertUser | Backend/kaamsetu-backend/src/main/java/com/kaamsetu/service/AuthService.java:46 | saving a user with an unused phone appends it with the next id and its creation time |
| Database.Store.UpdateUser | Backend/kaamsetu-backend/src/main/java/com/kaamsetu/service/TaskService.java:190-191 | saving a changed user replaces exactly its row |
| Lifecycle.ExactlyOneAccepted | Backend/kaamsetu-backend/src/main/java/com/kaamsetu/service/TaskService.java:148-164 | under the lifecycle rules, an ACCEPTED or COMPLETED task has exactly one ACCEPTED application, and it is the accepted worker's |
| Lifecycle.ApplicationOfOpenTaskIsPending | Backend/kaamsetu-backend/src/main/java/com/kaamsetu/service/TaskService.java:137-146 | every application of an OPEN task is PENDING, so accepting never takes back a decision |
| Lifecycle.CreateKeepsInvariant | Backend/kaamsetu-backend/src/main/java/com/kaamsetu/service/TaskService.java:79-90 | adding an OPEN task with no worker and no applications keeps the lifecycle rules |
| Lifecycle.ApplyKeepsInvariant | Backend/kaamsetu-backend/src/main/java/com/kaamsetu/service/TaskService.java:101-122 | adding a PENDING application to an OPEN task, from a worker who has not applied yet, keeps the rules |
| Lifecycle.AfterAccept | Backend/kaamsetu-backend/src/main/java/com/kaamsetu/service/TaskService.java:148-159 | accepting keeps the number of applications |
| Lifecycle.AfterAcceptOutcome | Backend/kaamsetu-backend/src/main/java/com/kaamsetu/service/TaskService.java:148-159 | after accepting, the chosen application is the task's only ACCEPTED one, every other one of the task is REJECTED, and other tasks' applications are untouched |
| Lifecycle.AcceptKeepsInvariant | Backend/kaamsetu-backend/src/main/java/com/kaamsetu/service/TaskService.java:148-164 | accepting an application of an OPEN task and recording its worker keeps the rules |
| Lifecycle.CompleteKeepsInvariant | Backend/kaamsetu-backend/src/main/java/com/kaamsetu/service/TaskService.java:184-185 | completing an ACCEPTED task, keeping its worker, keeps the rules |
| TaskQueries.WellFormedLinks | Backend/kaamsetu-backend/src/main/java/com/kaamsetu/service/TaskService.java:244-258 | in a valid store every owner and applicant resolves to a user and ids follow row order, so the mappers never dereference null |
| TaskQueries.ToApplicationResponse | Backend/kaamsetu-backend/src/main/java/com/kaamsetu/service/TaskService.java:255-266 | an application's body carries its id, status name, message, proposed budget and time, and the applicant's id, name and rating |
| TaskQueries.ApplicationResponses | Backend/kaamsetu-backend/src/main/java/com/kaamsetu/service/TaskService.java:247-249 | one body per application, in order, each that application's own body |
| TaskQueries.ToTaskResponse | Backend/kaamsetu-backend/src/main/java/com/kaamsetu/service/TaskService.java:223-253 | a task's body copies its id, title, description, category, budget, time, status name, accepted worker, and its location (latitude, longitude and address) or none; its urgency text parses back to the task's urgency; it names the owner; its applications are the bodies of `findByTaskId` of the task |
| TaskQueries.TaskResponses | Backend/kaamsetu-backend/src/main/java/com/kaamsetu/service/TaskService.java:47-48 | one body per task, in order, each that task's own body |
| TaskQueries.StagesAgree | Backend/kaamsetu-backend/src/main/java/com/kaamsetu/service/TaskService.java:38-46 | a task passes the four filter stages exactly when it matches the filter as a whole |
| TaskQueries.FilterTasksIsMatches | Backend/kaamsetu-backend/src/main/java/com/kaamsetu/service/TaskService.java:37-46 | the chain of four filters equals one filter by the whole match |
| TaskQueries.GetAllTasks | Backend/kaamsetu-backend/src/main/java/com/kaamsetu/service/TaskService.java:33-49 | the bodies of the tasks `findAllByOrderByCreatedAtDesc` gives that pass the four filters, in that order; every body is that of a stored task that matches the filter |
| TaskQueries.ListedAreStoredMatches | Backend/kaamsetu-backend/src/main/java/com/kaamsetu/service/TaskService.java:35-46 | every listed task is stored and matches the filter |
| TaskQueries.GetAllTasksSelection | Backend/kaamsetu-backend/src/main/java/com/kaamsetu/service/TaskService.java:33-49 | a task is listed exactly when it is stored and matches; the listing keeps the repository order and is newest first |
| TaskQueries.NoFilterListsEverything | Backend/kaamsetu-backend/src/main/java/com/kaamsetu/service/TaskService.java:38-46 | with every filter null or empty, nothing is filtered out |
| TaskQueries.GetTaskById | Backend/kaamsetu-backend/src/main/java/com/kaamsetu/service/TaskService.java:54-58 | not found, with the id in the message, exactly when no task has the id; otherwise the body of the task with that id |
| TaskQueries.GetTasksByUser | Backend/kaamsetu-backend/src/main/java/com/kaamsetu/service/TaskService.java:199-206 | "User not found" exactly when the user does not exist; otherwise the bodies of `findByCreatedByOrderByCreatedAtDesc` for that user, so only tasks that user created |
| TaskQueries.TasksByUserSelection | Backend/kaamsetu-backend/src/main/java/com/kaamsetu/repository/TaskRepository.java:13 | a task is listed exactly when it is stored and created by the user, newest first |
| TaskQueries.TasksOf | Backend/kaamsetu-backend/src/main/java/com/kaamsetu/service/TaskService.java:216 | one task per application, namely the task it applies to |
| TaskQueries.GetAppliedTasks | Backend/kaamsetu-backend/src/main/java/com/kaamsetu/service/TaskService.java:210-219 | "User not found" exactly when the user does not exist; otherwise the distinct bodies of the tasks of the worker's applications, in `findByWorker` order, a list without duplicates |
| TaskQueries.AppliedTasksNeedNoDedup | Backend/kaamsetu-backend/src/main/java/com/kaamsetu/service/TaskService.java:214-218 | under the lifecycle rules `.distinct()` removes nothing from the worker's tasks |
| TaskQueries.AppliedTasksAreApplications | Backend/kaamsetu-backend/src/main/java/com/kaamsetu/service/TaskService.java:210-219 | a task is among a worker's applied tasks exactly when the worker has an application on it |
| TaskQueries.ListedTaskWasApplied | Backend/kaamsetu-backend/src/main/java/com/kaamsetu/service/TaskService.java:213-218 | every task in a worker's applied list has an application of that worker |
| TaskQueries.AppliedTaskIsListed | Backend/kaamsetu-backend/src/main/java/com/kaamsetu/service/TaskService.java:213-218 | every task the worker applied to is in the applied list |
| TaskQueries.OneTaskPerApplication | Backend/kaamsetu-backend/src/main/java/com/kaamsetu/repository/ApplicationRepository.java:14 | with one application per worker and task, a worker's applications name pairwise different tasks |
| TaskService.ParseUrgency | Backend/kaamsetu-backend/src/main/java/com/kaamsetu/service/TaskService.java:63-68 | the urgency chosen is NORMAL or the one whose name the text spells ignoring case |
| TaskService.ParseUrgencyIgnoresCase | Backend/kaamsetu-backend/src/main/java/com/kaamsetu/service/TaskService.java:63-68 | the urgency chosen is the one the text spells in any case; text that spells none, or no text, gives NORMAL |
| TaskService.ToLocation | Backend/kaamsetu-backend/src/main/java/com/kaamsetu/service/TaskService.java:70-77 | the location copies latitude, longitude and address from the request |
| TaskService.CreateRejection | Backend/kaamsetu-backend/src/main/java/com/kaamsetu/service/TaskService.java:79-90 | creation fails exactly when a required column is null or the description is over 1000 characters, and only with a persistence error |
| TaskService.NewTask | Backend/kaamsetu-backend/src/main/java/com/kaamsetu/service/TaskService.java:79-88 | the built task is OPEN, has no worker, is owned by the caller, copies title, description, category and budget, has the parsed urgency, and has a location exactly when the request has one, copied from it |
| TaskService.CreateTask | Backend/kaamsetu-backend/src/main/java/com/kaamsetu/service/TaskService.java:62-92 | fails exactly when `CreateRejection` says so, changing nothing; otherwise appends the new OPEN task and returns `toTaskResponse` of the stored row, with no applications; the lifecycle rules hold after |
| TaskService.NoApplicationsYet | Backend/kaamsetu-backend/src/main/java/com/kaamsetu/service/TaskService.java:90-91 | a freshly created task has no applications |
| TaskService.NewTaskListedFirst | Backend/kaamsetu-backend/src/main/java/com/kaamsetu/repository/TaskRepository.java:13 | a newly created task heads its owner's list |
| TaskService.ApplyRejection | Backend/kaamsetu-backend/src/main/java/com/kaamsetu/service/TaskService.java:98-122 | applying is allowed exactly when the task exists, is OPEN, is not the worker's own, has no application of the worker, and the message fits 500 characters |
| TaskService.NewApplication | Backend/kaamsetu-backend/src/main/java/com/kaamsetu/service/TaskService.java:113-120 | the application is PENDING, for that task and worker, with the proposed budget or else the task's budget |
| TaskService.ApplyForTask | Backend/kaamsetu-backend/src/main/java/com/kaamsetu/service/TaskService.java:96-124 | fails exactly when `ApplyRejection` says so, changing nothing; otherwise appends the new PENDING application and returns `toApplicationResponse` of the stored row; tasks and users are unchanged and the rules hold after |
| TaskService.SecondApplicationRejected | Backend/kaamsetu-backend/src/main/java/com/kaamsetu/service/TaskService.java:109-111 | once a worker has applied, applying again to the task is refused as a duplicate |
| TaskService.AcceptRejection | Backend/kaamsetu-backend/src/main/java/com/kaamsetu/service/TaskService.java:130-146 | accepting is allowed exactly when the task exists, belongs to the caller and is OPEN, and the application exists and belongs to the task |
| TaskService.AcceptedTask | Backend/kaamsetu-backend/src/main/java/com/kaamsetu/service/TaskService.java:162-163 | the task becomes ACCEPTED with the application's worker |
| TaskService.AcceptApplication | Backend/kaamsetu-backend/src/main/java/com/kaamsetu/service/TaskService.java:129-167 | fails exactly when `AcceptRejection` says so, changing nothing; otherwise the applications become `AfterAccept` of the old ones, the task becomes ACCEPTED with the worker, and the answer is `toTaskResponse` of the updated row over the updated applications; users are unchanged and the rules hold after |
| TaskService.Hire | Backend/kaamsetu-backend/src/main/java/com/kaamsetu/service/TaskService.java:148-164 | the three saves of acceptance together give `AfterAccept` on applications and the ACCEPTED task row, keeping the rules |
| TaskService.RejectOthers | Backend/kaamsetu-backend/src/main/java/com/kaamsetu/service/TaskService.java:153-159 | the loop rejects every application of the task except the chosen one and leaves every other row as it was |
| TaskService.RejectedEveryOther | Backend/kaamsetu-backend/src/main/java/com/kaamsetu/service/TaskService.java:153-159 | once every application `findByTask` returned is handled, each row of the table is rejected unless it is the chosen one or belongs to another task |
| TaskService.AllRejected | Backend/kaamsetu-backend/src/main/java/com/kaamsetu/service/TaskService.java:148-159 | accepting the chosen application and then the rejection loop yields `AfterAccept` |
| TaskService.AcceptedTaskClosed | Backend/kaamsetu-backend/src/main/java/com/kaamsetu/service/TaskService.java:101-103 | once a task is accepted, accepting again and applying are both refused with the no-longer-open messages |
| TaskService.CompleteRejection | Backend/kaamsetu-backend/src/main/java/com/kaamsetu/service/TaskService.java:173-182 | completing is allowed exactly when the task exists, belongs to the caller and is ACCEPTED |
| TaskService.CreditWorker | Backend/kaamsetu-backend/src/main/java/com/kaamsetu/service/TaskService.java:188-192 | only the accepted worker's row changes, and its completed count goes up by one |
| TaskService.CompleteTask | Backend/kaamsetu-backend/src/main/java/com/kaamsetu/service/TaskService.java:172-195 | fails exactly when `CompleteRejection` says so, changing nothing; otherwise the task becomes COMPLETED (it always has a worker), that worker is credited, and the answer is `toTaskResponse` of the updated row; applications are unchanged and the rules hold after |
| TaskService.Finish | Backend/kaamsetu-backend/src/main/java/com/kaamsetu/service/TaskService.java:184-192 | the completion save and the credit together, keeping the rules |
| TaskService.CreditCompletion | Backend/kaamsetu-backend/src/main/java/com/kaamsetu/service/TaskService.java:188-192 | the users table becomes `CreditWorker` of the old one |
| TaskService.CompletedTaskClosed | Backend/kaamsetu-backend/src/main/java/com/kaamsetu/service/TaskService.java:180-182 | a task that is not ACCEPTED, such as a completed one, cannot be completed again |
| TaskService.CreditAddsOne | Backend/kaamsetu-backend/src/main/java/com/kaamsetu/service/TaskService.java:188-192 | completing raises the total of completed tasks over all users by exactly one |
| AuthService.BuildAuthResponse | Backend/kaamsetu-backend/src/main/java/com/kaamsetu/service/AuthService.java:65-77 | the body carries the token and the user's id, name, phone, role name, skills, rating, completed count and creation time; the role name parses back to the user's role |
| AuthService.ParseRole | Backend/kaamsetu-backend/src/main/java/com/kaamsetu/service/AuthService.java:31-36 | a parsed role is one whose name the text spells ignoring case |
| AuthService.ParseRoleIgnoresCase | Backend/kaamsetu-backend/src/main/java/com/kaamsetu/service/AuthService.java:31-36 | a role is chosen exactly when the text spells its name in any case |
| AuthService.RegisterRejection | Backend/kaamsetu-backend/src/main/java/com/kaamsetu/service/AuthService.java:27-36 | registration is allowed exactly when the phone is unused and the role parses; a used phone is reported first |
| AuthService.NewUser | Backend/kaamsetu-backend/src/main/java/com/kaamsetu/service/AuthService.java:38-44 | the user has the request's name and phone, the encoded password, the parsed role, the given skills or none, and no rating or completed tasks |
| AuthService.Register | Backend/kaamsetu-backend/src/main/java/com/kaamsetu/service/AuthService.java:26-50 | fails exactly when `RegisterRejection` says so, changing nothing; otherwise appends exactly the new user and answers with its body and token |
| AuthService.RegisteredPhoneTaken | Backend/kaamsetu-backend/src/main/java/com/kaamsetu/service/AuthService.java:27-29 | after a registration the phone finds the new user, and registering it again is refused |
| AuthService.Login | Backend/kaamsetu-backend/src/main/java/com/kaamsetu/service/AuthService.java:52-63 | an unauthenticated login fails; an unknown phone gives "User not found"; a success answers for a stored user with that phone |
| AuthService.LoginFindsOwner | Backend/kaamsetu-backend/src/main/java/com/kaamsetu/service/AuthService.java:57-62 | with unique phones, an authenticated login answers for exactly the phone's owner |
| Helpers.Bucket | Frontend/my-helper/src/utils/helpers.js:6-13 | under a minute is "just now", at least a week is a date; otherwise the minutes, hours or days shown are the elapsed time rounded down in that unit |
| Helpers.BucketMonotone | Frontend/my-helper/src/utils/helpers.js:6-13 | a longer elapsed time never lands in an earlier bucket nor shows a smaller count |
| Helpers.TimeAgo | Frontend/my-helper/src/utils/helpers.js:1-14 | under 60 seconds gives "Just now"; a week or more gives the locale date |
| Helpers.GetUrgencyConfig | Frontend/my-helper/src/utils/helpers.js:20-50 | the emergency badge exactly for "EMERGENCY", the urgent one exactly for "URGENT", the normal one for anything else |
| Helpers.UrgencyBadgeIsCaseSensitive | Frontend/my-helper/src/utils/helpers.js:21 | a lower-case urgency name falls to the normal badge |
| Helpers.UrgencyBadgesMatchLevels | Frontend/my-helper/src/utils/helpers.js:29-47 | each urgency's badge is labelled with its humanized name, and different urgencies get different badges |
| Helpers.GetStatusConfig | Frontend/my-helper/src/utils/helpers.js:52-67 | OPEN, ACCEPTED, IN_PROGRESS and COMPLETED get their labelled badges, CANCELLED the neutral "Cancelled" badge, and any other status the neutral badge labelled with itself; the label is the status itself exactly when the status is none of the five |
| Helpers.UnknownStatusShownAsIs | Frontend/my-helper/src/utils/helpers.js:64-65 | a status that names no task status is shown as it is, on the neutral badge |
| Helpers.HumanizedStatusNames | Frontend/my-helper/src/utils/helpers.js:55-63 | the five badge labels are the humanized status names |
| Helpers.StatusBadgesMatchStatuses | Frontend/my-helper/src/utils/helpers.js:52-67 | each status's badge is labelled with its humanized name, and different statuses get different labels |
| Helpers.GetCategoryIcon | Frontend/my-helper/src/utils/helpers.js:69-76 | an unknown category gets the clipboard fallback |
| Helpers.GetCategoryIconAsWritten | Frontend/my-helper/src/utils/helpers.js:69-76 | the map as written has the same twelve keys; an unknown key, and "other", and nothing else, get the fallback as written |
| Helpers.CategoryIconsDistinct | Frontend/my-helper/src/utils/helpers.js:70-75 | the twelve categories have twelve different icons, and only "other" shares the fallback |
| Helpers.Truncate | Frontend/my-helper/src/utils/helpers.js:78-81 | null or empty gives ""; a string that fits is kept; a longer one keeps its first `len` chars and ends in exactly one ellipsis char |
| Helpers.TruncateIdempotent | Frontend/my-helper/src/utils/helpers.js:78-81 | truncating twice with the same length is truncating once |
| Helpers.Utf8Bytes | Frontend/my-helper/src/utils/helpers.js:80 | the UTF-8 encoding of a char is one to four bytes |
| Helpers.Cp1252Text | Frontend/my-helper/src/utils/helpers.js:80 | a byte read as Windows-1252 is at most one char |
| Helpers.Misdecoded | Frontend/my-helper/src/utils/helpers.js:80 | mis-decoding leaves ASCII text unchanged |
| Helpers.TruncateAsWrittenOverruns | Frontend/my-helper/src/utils/helpers.js:80 | the ellipsis as written is the mis-decoded "…"; it makes every truncated string `len + 3` chars instead of `len + 1` |
| Helpers.CategoryIconsMisdecoded | Frontend/my-helper/src/utils/helpers.js:70-75 | every icon as written is the mis-decoded intended emoji and differs from it |
| Helpers.TruncateAsWritten | Frontend/my-helper/src/utils/helpers.js:78-81 | agrees with `Truncate` on null, empty and fitting strings; a longer string is cut as `Truncate` cuts it but ends in the ellipsis as written |
| Helpers.GetUrgencyConfigAsWritten | Frontend/my-helper/src/utils/helpers.js:20-50 | each badge as written is the intended one except for its icon |
| Helpers.UrgencyIconsMisdecoded | Frontend/my-helper/src/utils/helpers.js:28-46 | every urgency badge as written is the intended one with its icon mis-decoded, and the icons differ |

## Left out

- Floating point: budgets are whole numbers. Ratings and coordinates are
  `real`s that are carried but never computed on.
- The wall clock: the store's logical clock stands for
  `LocalDateTime.now()`. `timeAgo` takes both readings as millisecond
  parameters, plus the locale-formatted date (`toLocaleDateString`).
- `formatCurrency` (helpers.js:16-18): locale number formatting. Its
  rupee sign is mis-encoded in the same way as the icons under
  "## Findings".
- Password hashing, JWT issuing and the authentication manager are
  parameters: `encode` and `issue` are functions, and login's
  authentication verdict is a `bool`.
- `@Transactional`, concurrency and rollback: each service method runs
  alone. The checks come before any save, so a refusal changes nothing.
- Case mapping is ASCII-only, and lengths are counted in chars, not
  UTF-16 code units.
- `getCategoryIcon` with a key inherited from `Object.prototype` (such as
  "constructor") is not modelled: the map is a plain dictionary.
- `User.java`, the enum files, `ApplicationRequest` and `LoginRequest`
  are not part of this model. The user record is taken with rating 0 and
  no completed tasks by default. The two request bodies are reduced to
  the fields the services read.
- 32-bit `Integer` overflow of the budget and of `tasksCompleted` is not
  modelled.
- The default 255-character limit of the unannotated columns (title,
  category, address) is not modelled; only the declared lengths 1000 and
  500 are.
- A `NullPointerException` is not modelled: the four `RegisterRequest`
  strings are never null, because they are `@NotBlank` and validated
  before the service runs.
- Helpers.TimeAgo: states only the "Just now" and locale-date ends. The
  minute, hour and day texts are covered by `Helpers.Bucket`. A
  non-numeric date (`NaN`) is not modelled.
- Helpers.GetCategoryIcon: states only the fallback. The twelve mapped
  icons form a constant table; `Helpers.CategoryIconsDistinct` proves
  only that they differ from one another and that only "other" gets the
  fallback.
- Row order: `findByTask`, `findByTaskId` and `findByWorker` have no
  ORDER BY, so the database may return rows in any order. The model
  returns them in id order. This is a model choice, and so the order of
  application bodies and of the applied-tasks view is that choice.
- The clock strictly increases with every save, so no two tasks share a
  `createdAt`. Ties under `OrderByCreatedAtDesc` are not modelled.
- Ids from a sequence that a refused insert advances are not modelled. The
  model gives the next row the next id even after a refused save (a null
  required column, a description over 1000 characters or a message over
  500); some databases skip a value there.
- Ids are `nat`. A negative id in a request path (such as
  "Task not found with id: -1") cannot be expressed.

## Findings

| source | as written | input that shows it | evidently intended | confidence | as-written member | corrected member |
|---|---|---|---|---|---|---|
| Frontend/my-helper/src/utils/helpers.js:80 | the ellipsis literal is stored as three chars "â€¦", the UTF-8 bytes of "…" read as Windows-1252 | `truncate("a".repeat(100), 80)` gives 83 chars ending in "â€¦" | one "…" char, 81 chars in all | not executed | Helpers.TruncateAsWrittenOverruns | Helpers.Truncate |
| Frontend/my-helper/src/utils/helpers.js:70-75 | every category icon is a mis-decoded emoji, such as "ðŸ”§" for plumbing | `getCategoryIcon("plumbing")` | the emoji "🔧" | not executed | Helpers.CategoryIconsMisdecoded | Helpers.CategoryIconsDistinct |
| Frontend/my-helper/src/utils/helpers.js:28-46 | the three urgency icons are mis-decoded: "ðŸš¨", "âš¡", "âœ“" | `getUrgencyConfig("EMERGENCY").icon` | "🚨", "⚡" and "✓" | not executed | Helpers.UrgencyIconsMisdecoded | Helpers.UrgencyBadgesMatchLevels |
