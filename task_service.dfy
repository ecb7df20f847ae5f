/** The write side of service/TaskService.java: createTask, applyForTask,
    acceptApplication and completeTask as methods on the store. Each is
    proved to leave the store in the state a specification function
    describes, to surface the same errors in the same order, and to keep the
    lifecycle rules of module Lifecycle. */
module TaskService {
  import opened Wrappers
  import opened Text
  import opened Seqs
  import opened Entities
  import opened Requests
  import opened Database
  import opened Lifecycle
  import opened TaskQueries

  // ---------------------------------------------------------------- start

  /** A fresh, empty database: valid, and the lifecycle rules hold from the start. */
  method OpenStore() returns (db: Store)
    ensures fresh(db)
    ensures db.Valid() && Invariant(db.tasks, db.applications)
    ensures db.tasks == [] && db.applications == [] && db.users == []
  {
    db := new Store();
  }

  // ---------------------------------------------------------------- createTask

  /** `UrgencyLevel.valueOf(urgency.toUpperCase())`, falling back to NORMAL
      when the text is null or names no level. */
  function ParseUrgency(urgency: Option<string>): (u: UrgencyLevel)
    ensures u == Normal || (urgency.Some? && EqualsIgnoreCase(urgency.value, u.Name()))
  {
    if urgency.None? then Normal
    else
      var parsed := UrgencyValueOf(ToUpper(urgency.value));
      if parsed.Some? then ToUpperIsNameIffEqualsIgnoreCase(urgency.value, parsed.value.Name()); parsed.value
      else Normal
  }

  /** A level other than NORMAL is chosen exactly when the text spells its
      name in any mix of upper and lower case; anything else gives NORMAL. */
  lemma ParseUrgencyIgnoresCase(text: string, u: UrgencyLevel)
    ensures ParseUrgency(Some(text)) == u <==>
              (EqualsIgnoreCase(text, u.Name())
               || (u == Normal && forall v: UrgencyLevel :: !EqualsIgnoreCase(text, v.Name())))
  {
    ToUpperIsNameIffEqualsIgnoreCase(text, "NORMAL");
    ToUpperIsNameIffEqualsIgnoreCase(text, "URGENT");
    ToUpperIsNameIffEqualsIgnoreCase(text, "EMERGENCY");
    assert forall v: UrgencyLevel :: v.Name() in {"NORMAL", "URGENT", "EMERGENCY"};
  }

  function ToLocation(dto: LocationDto): (l: Location)
    ensures l.lat == dto.lat && l.lng == dto.lng && l.address == dto.address
  {
    Location(dto.lat, dto.lng, dto.address)
  }

  /** Why the database refuses the task createTask builds: the first NOT NULL
      column left null, or a description longer than its column. */
  function CreateRejection(request: TaskRequest): (e: Option<Error>)
    ensures e.None? <==> && request.title.Some? && request.description.Some?
                         && request.category.Some? && request.budget.Some?
                         && |request.description.value| <= DescriptionColumnLength
    ensures e.Some? ==> e.value.Persistence?
  {
    if request.title.None? then Some(Persistence("title"))
    else if request.description.None? then Some(Persistence("description"))
    else if request.category.None? then Some(Persistence("category"))
    else if request.budget.None? then Some(Persistence("budget"))
    else if |request.description.value| > DescriptionColumnLength then Some(Persistence("description"))
    else None
  }

  /** The task createTask builds, before it is saved. */
  function NewTask(request: TaskRequest, owner: Id): (t: Task)
    requires CreateRejection(request).None?
    ensures t.status == Open && t.acceptedWorker.None? && t.createdBy == owner
    ensures t.title == request.title.value && t.description == request.description.value
    ensures t.category == request.category.value && t.budget == request.budget.value
    ensures t.urgency == ParseUrgency(request.urgency)
    ensures t.location.None? <==> request.location.None?
    ensures request.location.Some? ==> t.location == Some(ToLocation(request.location.value))
  {
    BuildTask(request.title.value, request.description.value, request.category.value, request.budget.value,
              ParseUrgency(request.urgency), Some(Open),
              if request.location.Some? then Some(ToLocation(request.location.value)) else None,
              owner)
  }

  /** The row the save stores: the next id, both timestamps at `now`. */
  function StoredTask(request: TaskRequest, owner: Id, id: Id, now: Time): Task
    requires CreateRejection(request).None?
  {
    NewTask(request, owner).(id := id, createdAt := Some(now), updatedAt := Some(now))
  }

  /** createTask. A request the database refuses changes nothing; otherwise
      one OPEN task owned by the caller is appended, and its response lists
      no applications. */
  method CreateTask(db: Store, request: TaskRequest, currentUser: Id) returns (r: Result<TaskResponse, Error>)
    requires db.Valid() && Invariant(db.tasks, db.applications)
    requires 1 <= currentUser <= |db.users|
    modifies db
    ensures db.Valid() && Invariant(db.tasks, db.applications)
    ensures db.applications == old(db.applications) && db.users == old(db.users)
    ensures r.Failure? <==> CreateRejection(request).Some?
    ensures r.Failure? ==> r.error == CreateRejection(request).value && db.tasks == old(db.tasks)
    ensures r.Success? ==>
              && db.tasks == old(db.tasks) + [StoredTask(request, currentUser, |old(db.tasks)| + 1, db.clock)]
              && r.value.id == |db.tasks| && r.value.status == "OPEN" && r.value.applications == []
              && r.value == ToTaskResponse(db.tasks[|db.tasks| - 1], db.applications, db.users)
  {
    var rejection := CreateRejection(request);
    if rejection.Some? {
      // The save fails on a NOT NULL or length constraint; nothing is stored.
      return Failure(rejection.value);
    }
    var task := NewTask(request, currentUser);
    var saved := db.InsertTask(task);
    var row := saved.value;
    assert Invariant(db.tasks, db.applications) by {
      CreateKeepsInvariant(old(db.tasks), db.applications, row);
    }
    assert WorkersKnown(db.applications, db.users) && 1 <= row.createdBy <= |db.users| by {
      WellFormedLinks(db.tasks, db.applications, db.users, db.clock);
    }
    assert FindByTask(db.applications, row.id) == [] by {
      forall k | 0 <= k < |db.applications| ensures db.applications[k].task <= |old(db.tasks)| {
        assert ApplicationRowOk(db.applications[k], k, |old(db.tasks)|, |db.users|, old(db.clock));
      }
      NoApplicationsYet(db.applications, |old(db.tasks)|, row.id);
    }
    r := Success(ToTaskResponse(row, db.applications, db.users));
  }

  /** No stored application names a task id past the end of the table. */
  lemma NoApplicationsYet(apps: seq<Application>, taskCount: nat, id: Id)
    requires forall k :: 0 <= k < |apps| ==> apps[k].task <= taskCount
    requires id > taskCount
    ensures FindByTask(apps, id) == []
  {
    FilterNone(apps, (a: Application) => a.task == id);
  }

  /** The task just created is the first of its owner's tasks, newest first. */
  lemma NewTaskListedFirst(tasks: seq<Task>, t: Task)
    ensures FindByCreatedByOrderByCreatedAtDesc(tasks + [t], t.createdBy)[0] == t
  {
    assert FindAllByOrderByCreatedAtDesc(tasks + [t])[0] == t;
  }

  // ---------------------------------------------------------------- applyForTask

  /** Why applyForTask refuses, checked in the order the service checks:
      unknown task, task not OPEN, own task, second application, and a
      message longer than its column. */
  function ApplyRejection(tasks: seq<Task>, apps: seq<Application>, taskId: Id,
                          request: ApplicationRequest, worker: Id): (e: Option<Error>)
    requires TaskIdsInOrder(tasks)
    ensures e.None? <==> && 1 <= taskId <= |tasks| && tasks[taskId - 1].status == Open
                         && tasks[taskId - 1].createdBy != worker
                         && !ExistsByTaskAndWorker(apps, taskId, worker)
                         && (request.message.Some? ==> |request.message.value| <= MessageColumnLength)
  {
    match FindTaskById(tasks, taskId)
    case None => Some(NotFound("Task not found"))
    case Some(task) =>
      if task.status != Open then Some(BadRequest("Task is no longer open for applications"))
      else if task.createdBy == worker then Some(BadRequest("You cannot apply for your own task"))
      else if ExistsByTaskAndWorker(apps, task.id, worker) then Some(BadRequest("You have already applied for this task"))
      else if request.message.Some? && |request.message.value| > MessageColumnLength then Some(Persistence("message"))
      else None
  }

  /** The application applyForTask builds: PENDING, with the proposed
      budget or, when none is given, the task's budget. */
  function NewApplication(task: Task, request: ApplicationRequest, worker: Id): (a: Application)
    ensures a.task == task.id && a.worker == worker && a.status == Pending && a.message == request.message
    ensures a.proposedBudget == Some(if request.proposedBudget.Some? then request.proposedBudget.value else task.budget)
  {
    BuildApplication(task.id, worker, request.message,
                     Some(if request.proposedBudget.Some? then request.proposedBudget.value else task.budget), None)
  }

  /** applyForTask. A refused application changes nothing; otherwise exactly
      one PENDING application is appended. */
  method ApplyForTask(db: Store, taskId: Id, request: ApplicationRequest, worker: Id)
    returns (r: Result<ApplicationResponse, Error>)
    requires db.Valid() && Invariant(db.tasks, db.applications)
    requires 1 <= worker <= |db.users|
    modifies db
    ensures db.Valid() && Invariant(db.tasks, db.applications)
    ensures db.tasks == old(db.tasks) && db.users == old(db.users)
    ensures var e := ApplyRejection(old(db.tasks), old(db.applications), taskId, request, worker);
            && (r.Failure? <==> e.Some?)
            && (r.Failure? ==> r.error == e.value && db.applications == old(db.applications))
    ensures r.Success? ==>
              && db.applications == old(db.applications)
                   + [NewApplication(db.tasks[taskId - 1], request, worker).(id := |old(db.applications)| + 1,
                                                                            appliedAt := Some(db.clock))]
              && r.value.id == |db.applications| && r.value.workerId == worker && r.value.status == "PENDING"
              && r.value == ToApplicationResponse(db.applications[|db.applications| - 1], db.users)
  {
    assert TaskIdsInOrder(db.tasks) && ApplicationIdsInOrder(db.applications) by {
      WellFormedLinks(db.tasks, db.applications, db.users, db.clock);
    }
    var found := FindTaskById(db.tasks, taskId);
    if found.None? {
      return Failure(NotFound("Task not found"));
    }
    var task := found.value;
    if task.status != Open {
      return Failure(BadRequest("Task is no longer open for applications"));
    }
    if task.createdBy == worker {
      return Failure(BadRequest("You cannot apply for your own task"));
    }
    if ExistsByTaskAndWorker(db.applications, task.id, worker) {
      return Failure(BadRequest("You have already applied for this task"));
    }
    var application := NewApplication(task, request, worker);
    var saved := db.InsertApplication(application);
    if saved.Failure? {
      return Failure(saved.error);
    }
    assert Invariant(db.tasks, db.applications) by {
      ApplyKeepsInvariant(db.tasks, old(db.applications), taskId - 1, saved.value);
    }
    assert UserIdsInOrder(db.users) by {
      WellFormedLinks(db.tasks, db.applications, db.users, db.clock);
    }
    assert db.applications[|db.applications| - 1] == saved.value;
    r := Success(ToApplicationResponse(saved.value, db.users));
  }

  /** Once a worker's application is stored, the same worker applying to
      the same task again is refused as a duplicate. */
  lemma SecondApplicationRejected(tasks: seq<Task>, apps: seq<Application>, taskId: Id,
                                  first: ApplicationRequest, again: ApplicationRequest, worker: Id, row: Application)
    requires TaskIdsInOrder(tasks)
    requires ApplyRejection(tasks, apps, taskId, first, worker).None?
    requires row.task == taskId && row.worker == worker
    ensures ApplyRejection(tasks, apps + [row], taskId, again, worker)
            == Some(BadRequest("You have already applied for this task"))
  {
    assert (apps + [row])[|apps|] == row;
  }

  // ---------------------------------------------------------------- acceptApplication

  /** Why acceptApplication refuses, in the order the service checks:
      unknown task, caller not the owner, task not OPEN, unknown application,
      application of another task. */
  function AcceptRejection(tasks: seq<Task>, apps: seq<Application>, taskId: Id, applicationId: Id,
                           currentUser: Id): (e: Option<Error>)
    requires TaskIdsInOrder(tasks) && ApplicationIdsInOrder(apps)
    ensures e.None? <==> && 1 <= taskId <= |tasks| && tasks[taskId - 1].createdBy == currentUser
                         && tasks[taskId - 1].status == Open
                         && 1 <= applicationId <= |apps| && apps[applicationId - 1].task == taskId
  {
    match FindTaskById(tasks, taskId)
    case None => Some(NotFound("Task not found"))
    case Some(task) =>
      if task.createdBy != currentUser then Some(BadRequest("Only the task owner can accept applications"))
      else if task.status != Open then Some(BadRequest("Task is no longer open"))
      else match FindApplicationById(apps, applicationId)
        case None => Some(NotFound("Application not found"))
        case Some(accepted) =>
          if accepted.task != taskId then Some(BadRequest("Application does not belong to this task"))
          else None
  }

  /** The task row after acceptApplication, before its save stamps `updatedAt`. */
  function AcceptedTask(task: Task, worker: Id): (t: Task)
    ensures t.status == TaskStatus.Accepted && t.acceptedWorker == Some(worker) && t.id == task.id
  {
    task.(status := TaskStatus.Accepted, acceptedWorker := Some(worker))
  }

  /** acceptApplication. A refusal changes nothing. Otherwise the chosen
      application becomes ACCEPTED, every other application of the task
      REJECTED (AfterAccept), and the task ACCEPTED with the chosen worker. */
  method AcceptApplication(db: Store, taskId: Id, applicationId: Id, currentUser: Id)
    returns (r: Result<TaskResponse, Error>)
    requires db.Valid() && Invariant(db.tasks, db.applications)
    requires 1 <= currentUser <= |db.users|
    modifies db
    ensures db.Valid() && Invariant(db.tasks, db.applications)
    ensures db.users == old(db.users)
    ensures var e := AcceptRejection(old(db.tasks), old(db.applications), taskId, applicationId, currentUser);
            && (r.Failure? <==> e.Some?)
            && (r.Failure? ==> r.error == e.value && db.tasks == old(db.tasks)
                                && db.applications == old(db.applications))
    ensures r.Success? ==>
              && db.applications == AfterAccept(old(db.applications), taskId, applicationId)
              && db.tasks == old(db.tasks)[taskId - 1 :=
                   AcceptedTask(old(db.tasks)[taskId - 1], old(db.applications)[applicationId - 1].worker)
                     .(updatedAt := Some(db.clock))]
              && r.value.id == taskId && r.value.status == "ACCEPTED"
              && r.value == ToTaskResponse(db.tasks[taskId - 1], db.applications, db.users)
  {
    assert TaskIdsInOrder(db.tasks) && ApplicationIdsInOrder(db.applications) by {
      WellFormedLinks(db.tasks, db.applications, db.users, db.clock);
    }
    var found := FindTaskById(db.tasks, taskId);
    if found.None? {
      return Failure(NotFound("Task not found"));
    }
    var task := found.value;
    if task.createdBy != currentUser {
      return Failure(BadRequest("Only the task owner can accept applications"));
    }
    if task.status != Open {
      return Failure(BadRequest("Task is no longer open"));
    }
    var foundApp := FindApplicationById(db.applications, applicationId);
    if foundApp.None? {
      return Failure(NotFound("Application not found"));
    }
    var accepted := foundApp.value;
    if accepted.task != taskId {
      return Failure(BadRequest("Application does not belong to this task"));
    }
    var row := Hire(db, task, accepted);
    assert db.tasks[taskId - 1] == row;
    assert WorkersKnown(db.applications, db.users) && 1 <= row.createdBy <= |db.users| by {
      WellFormedLinks(db.tasks, db.applications, db.users, db.clock);
    }
    r := Success(ToTaskResponse(row, db.applications, db.users));
  }

  /** The writes of acceptApplication once every check has passed: the
      chosen application ACCEPTED, the task's other applications REJECTED,
      and the task ACCEPTED with the chosen worker. */
  method Hire(db: Store, task: Task, accepted: Application) returns (row: Task)
    requires db.Valid() && Invariant(db.tasks, db.applications)
    requires 1 <= task.id <= |db.tasks| && db.tasks[task.id - 1] == task && task.status == Open
    requires 1 <= accepted.id <= |db.applications| && db.applications[accepted.id - 1] == accepted
    requires accepted.task == task.id
    modifies db
    ensures db.Valid() && Invariant(db.tasks, db.applications)
    ensures db.users == old(db.users)
    ensures db.applications == AfterAccept(old(db.applications), task.id, accepted.id)
    ensures row == AcceptedTask(task, accepted.worker).(updatedAt := Some(db.clock))
    ensures db.tasks == old(db.tasks)[task.id - 1 := row]
  {
    assert TaskIdsInOrder(db.tasks) && ApplicationIdsInOrder(db.applications) by {
      WellFormedLinks(db.tasks, db.applications, db.users, db.clock);
    }
    ghost var apps0 := db.applications;
    assert ApplicationRowOk(accepted, accepted.id - 1, |db.tasks|, |db.users|, db.clock);

    // Accept this application
    db.UpdateApplication(accepted.(status := ApplicationStatus.Accepted));
    ghost var apps1 := db.applications;
    assert apps1 == apps0[accepted.id - 1 := accepted.(status := ApplicationStatus.Accepted)];

    // Reject all others
    RejectOthers(db, task.id, accepted.id);
    assert db.applications == AfterAccept(apps0, task.id, accepted.id) by {
      AllRejected(apps0, apps1, db.applications, task.id, accepted.id);
    }

    // Update task
    assert TaskRowOk(task, task.id - 1, |db.users|, db.clock);
    row := db.UpdateTask(AcceptedTask(task, accepted.worker));
    assert Invariant(db.tasks, db.applications) by {
      AcceptKeepsInvariant(old(db.tasks), apps0, task.id - 1, accepted.id - 1, row);
    }
  }

  /** An application of the task other than the accepted one becomes
      REJECTED; every other application is left as it is. */
  function RejectUnlessChosen(a: Application, taskId: Id, applicationId: Id): Application {
    if a.task == taskId && a.id != applicationId then a.(status := Rejected) else a
  }

  /** The rejection loop of acceptApplication: every application
      `findByTask` returns, except the accepted one, is saved REJECTED. */
  method RejectOthers(db: Store, taskId: Id, applicationId: Id)
    requires db.Valid()
    modifies db`applications
    ensures db.Valid()
    ensures |db.applications| == |old(db.applications)|
    ensures forall k :: 0 <= k < |db.applications| ==>
              db.applications[k] == RejectUnlessChosen(old(db.applications)[k], taskId, applicationId)
  {
    ghost var apps := db.applications;
    assert ApplicationIdsInOrder(apps) by {
      WellFormedLinks(db.tasks, db.applications, db.users, db.clock);
    }
    var others := FindByTask(db.applications, taskId);
    var i := 0;
    while i < |others|
      invariant 0 <= i <= |others|
      invariant db.Valid()
      invariant RejectedSoFar(apps, db.applications, others[..i], taskId, applicationId)
    {
      var app := others[i];
      assert app in apps && app.task == taskId;
      assert others[..i + 1] == others[..i] + [app];
      RejectStep(db.tasks, apps, db.applications, db.users, db.clock, others[..i], app, taskId, applicationId);
      if app.id != applicationId {
        db.UpdateApplication(app.(status := Rejected));
      }
      i := i + 1;
    }
    assert others[..i] == others;
    RejectedEveryOther(apps, db.applications, taskId, applicationId);
  }

  /** Once every application `findByTask` returned is handled, each row is
      rejected unless it is the chosen one or belongs to another task. */
  lemma RejectedEveryOther(apps: seq<Application>, now: seq<Application>, taskId: Id, applicationId: Id)
    requires RejectedSoFar(apps, now, FindByTask(apps, taskId), taskId, applicationId)
    ensures |now| == |apps|
    ensures forall k :: 0 <= k < |now| ==> now[k] == RejectUnlessChosen(apps[k], taskId, applicationId)
  {
  }

  /** Every application in `done` has been handled: rejected unless it is
      the chosen one; every other application is as it was. */
  ghost predicate RejectedSoFar(apps: seq<Application>, now: seq<Application>, done: seq<Application>,
                                taskId: Id, applicationId: Id) {
    && |now| == |apps|
    && forall k :: 0 <= k < |apps| ==>
         now[k] == if apps[k] in done then RejectUnlessChosen(apps[k], taskId, applicationId) else apps[k]
  }

  /** One turn of the rejection loop: the application can be saved, and
      saving it REJECTED (unless it is the chosen one) keeps RejectedSoFar. */
  lemma RejectStep(tasks: seq<Task>, apps: seq<Application>, now: seq<Application>, users: seq<User>,
                   clock: Time, done: seq<Application>, app: Application, taskId: Id, applicationId: Id)
    requires WellFormed(tasks, now, users, clock) && ApplicationIdsInOrder(apps)
    requires RejectedSoFar(apps, now, done, taskId, applicationId)
    requires app in apps && app.task == taskId
    ensures 1 <= app.id <= |now| && now[app.id - 1].appliedAt == app.appliedAt
    ensures 1 <= app.task <= |tasks| && 1 <= app.worker <= |users|
    ensures app.message.Some? ==> |app.message.value| <= MessageColumnLength
    ensures app.id == applicationId ==> RejectedSoFar(apps, now, done + [app], taskId, applicationId)
    ensures app.id != applicationId ==>
              var r := app.(status := Rejected);
              RejectedSoFar(apps, now[app.id - 1 := r.(appliedAt := now[app.id - 1].appliedAt)], done + [app],
                            taskId, applicationId)
  {
    var k :| 0 <= k < |apps| && apps[k] == app;
    assert app.id == k + 1;
    assert ApplicationRowOk(now[k], k, |tasks|, |users|, clock);
    assert now[k] == RejectUnlessChosen(app, taskId, applicationId) || now[k] == app;
    var after := if app.id == applicationId then now else now[k := app.(status := Rejected)];
    forall m | 0 <= m < |apps|
      ensures after[m] == if apps[m] in done + [app] then RejectUnlessChosen(apps[m], taskId, applicationId)
                          else apps[m]
    {
      if m != k {
        assert apps[m].id != apps[k].id;
      }
    }
  }

  /** Accepting the chosen row and then rejecting every other application
      of the task yields AfterAccept. */
  lemma AllRejected(apps0: seq<Application>, apps1: seq<Application>, apps2: seq<Application>,
                    taskId: Id, applicationId: Id)
    requires ApplicationIdsInOrder(apps0) && 1 <= applicationId <= |apps0|
    requires apps0[applicationId - 1].task == taskId
    requires apps1 == apps0[applicationId - 1 := apps0[applicationId - 1].(status := ApplicationStatus.Accepted)]
    requires |apps2| == |apps1|
    requires forall k :: 0 <= k < |apps1| ==> apps2[k] == RejectUnlessChosen(apps1[k], taskId, applicationId)
    ensures apps2 == AfterAccept(apps0, taskId, applicationId)
  {
  }

  /** Once a task is ACCEPTED, accepting again and applying are refused. */
  lemma AcceptedTaskClosed(tasks: seq<Task>, apps: seq<Application>, taskId: Id, applicationId: Id,
                           currentUser: Id, request: ApplicationRequest, worker: Id)
    requires TaskIdsInOrder(tasks) && ApplicationIdsInOrder(apps)
    requires 1 <= taskId <= |tasks| && tasks[taskId - 1].status == TaskStatus.Accepted
    requires tasks[taskId - 1].createdBy == currentUser
    ensures AcceptRejection(tasks, apps, taskId, applicationId, currentUser) == Some(BadRequest("Task is no longer open"))
    ensures ApplyRejection(tasks, apps, taskId, request, worker)
            == Some(BadRequest("Task is no longer open for applications"))
  {
  }

  // ---------------------------------------------------------------- completeTask

  /** Why completeTask refuses, in the order the service checks: unknown
      task, caller not the owner, task not ACCEPTED. */
  function CompleteRejection(tasks: seq<Task>, taskId: Id, currentUser: Id): (e: Option<Error>)
    requires TaskIdsInOrder(tasks)
    ensures e.None? <==> && 1 <= taskId <= |tasks| && tasks[taskId - 1].createdBy == currentUser
                         && tasks[taskId - 1].status == TaskStatus.Accepted
  {
    match FindTaskById(tasks, taskId)
    case None => Some(NotFound("Task not found"))
    case Some(task) =>
      if task.createdBy != currentUser then Some(BadRequest("Only the task owner can complete it"))
      else if task.status != TaskStatus.Accepted then Some(BadRequest("Task must be in ACCEPTED status to complete"))
      else None
  }

  /** The user table after completing a task: the accepted worker, if any,
      has one more completed task. */
  function CreditWorker(users: seq<User>, worker: Option<Id>): (r: seq<User>)
    requires worker.Some? ==> 1 <= worker.value <= |users|
    ensures |r| == |users|
    ensures forall k :: 0 <= k < |users| && Some(k + 1) != worker ==> r[k] == users[k]
    ensures worker.Some? ==> r[worker.value - 1].tasksCompleted == users[worker.value - 1].tasksCompleted + 1
    ensures worker.Some? ==> r[worker.value - 1] == users[worker.value - 1].(tasksCompleted := r[worker.value - 1].tasksCompleted)
  {
    if worker.None? then users
    else
      var w := users[worker.value - 1];
      users[worker.value - 1 := w.(tasksCompleted := w.tasksCompleted + 1)]
  }

  /** completeTask. A refusal changes nothing. Otherwise the task becomes
      COMPLETED and its accepted worker's completed count goes up by one. */
  method CompleteTask(db: Store, taskId: Id, currentUser: Id) returns (r: Result<TaskResponse, Error>)
    requires db.Valid() && Invariant(db.tasks, db.applications)
    requires 1 <= currentUser <= |db.users|
    modifies db
    ensures db.Valid() && Invariant(db.tasks, db.applications)
    ensures db.applications == old(db.applications)
    ensures var e := CompleteRejection(old(db.tasks), taskId, currentUser);
            && (r.Failure? <==> e.Some?)
            && (r.Failure? ==> r.error == e.value && db.tasks == old(db.tasks) && db.users == old(db.users))
    ensures r.Success? ==>
              && db.tasks == old(db.tasks)[taskId - 1 :=
                   old(db.tasks)[taskId - 1].(status := Completed, updatedAt := Some(db.clock))]
              && old(db.tasks)[taskId - 1].acceptedWorker.Some?
              && db.users == CreditWorker(old(db.users), old(db.tasks)[taskId - 1].acceptedWorker)
              && r.value.id == taskId && r.value.status == "COMPLETED"
              && r.value == ToTaskResponse(db.tasks[taskId - 1], db.applications, db.users)
  {
    assert TaskIdsInOrder(db.tasks) && ApplicationIdsInOrder(db.applications) by {
      WellFormedLinks(db.tasks, db.applications, db.users, db.clock);
    }
    var found := FindTaskById(db.tasks, taskId);
    if found.None? {
      return Failure(NotFound("Task not found"));
    }
    var task := found.value;
    if task.createdBy != currentUser {
      return Failure(BadRequest("Only the task owner can complete it"));
    }
    if task.status != TaskStatus.Accepted {
      return Failure(BadRequest("Task must be in ACCEPTED status to complete"));
    }
    var row := Finish(db, task);
    assert db.tasks[taskId - 1] == row;
    assert WorkersKnown(db.applications, db.users) && 1 <= row.createdBy <= |db.users| by {
      WellFormedLinks(db.tasks, db.applications, db.users, db.clock);
    }
    r := Success(ToTaskResponse(row, db.applications, db.users));
  }

  /** The writes of completeTask once its checks have passed: the task
      COMPLETED, then its accepted worker credited. */
  method Finish(db: Store, task: Task) returns (row: Task)
    requires db.Valid() && Invariant(db.tasks, db.applications)
    requires 1 <= task.id <= |db.tasks| && db.tasks[task.id - 1] == task
    requires task.status == TaskStatus.Accepted
    modifies db
    ensures db.Valid() && Invariant(db.tasks, db.applications)
    ensures db.applications == old(db.applications)
    ensures row == task.(status := Completed, updatedAt := Some(db.clock)) && row.acceptedWorker.Some?
    ensures db.tasks == old(db.tasks)[task.id - 1 := row]
    ensures db.users == CreditWorker(old(db.users), task.acceptedWorker)
  {
    assert TaskRowOk(task, task.id - 1, |db.users|, db.clock);
    assert TaskConsistent(task, db.applications);
    row := db.UpdateTask(task.(status := Completed));
    assert Invariant(db.tasks, db.applications) by {
      CompleteKeepsInvariant(old(db.tasks), db.applications, task.id - 1, row);
    }

    // Increment worker's completed count
    CreditCompletion(db, row.acceptedWorker);
  }

  /** The last step of completeTask: the accepted worker, if any, is saved
      with one more completed task. */
  method CreditCompletion(db: Store, worker: Option<Id>)
    requires db.Valid()
    requires worker.Some? ==> 1 <= worker.value <= |db.users|
    modifies db`users
    ensures db.Valid()
    ensures db.users == CreditWorker(old(db.users), worker)
  {
    if worker.Some? {
      var w := db.users[worker.value - 1];
      assert UserRowOk(w, worker.value - 1, db.clock);
      db.UpdateUser(w.(tasksCompleted := w.tasksCompleted + 1));
    }
  }

  /** A completed task cannot be completed again. */
  lemma CompletedTaskClosed(tasks: seq<Task>, taskId: Id, currentUser: Id)
    requires TaskIdsInOrder(tasks)
    requires 1 <= taskId <= |tasks| && tasks[taskId - 1].status == Completed
    requires tasks[taskId - 1].createdBy == currentUser
    ensures CompleteRejection(tasks, taskId, currentUser)
            == Some(BadRequest("Task must be in ACCEPTED status to complete"))
  {
  }

  /** Crediting a worker adds exactly one to the total of completed counts. */
  lemma CreditAddsOne(users: seq<User>, worker: Id)
    requires 1 <= worker <= |users|
    ensures TotalCompleted(CreditWorker(users, Some(worker))) == TotalCompleted(users) + 1
  {
    var credited := CreditWorker(users, Some(worker));
    TotalCompletedUpdate(users, worker - 1, credited[worker - 1]);
    assert credited == users[worker - 1 := credited[worker - 1]];
  }

  /** The sum of every user's completed count. */
  function TotalCompleted(users: seq<User>): nat {
    if users == [] then 0 else users[0].tasksCompleted + TotalCompleted(users[1..])
  }

  lemma {:induction false} TotalCompletedUpdate(users: seq<User>, k: int, u: User)
    requires 0 <= k < |users|
    ensures TotalCompleted(users[k := u]) + users[k].tasksCompleted == TotalCompleted(users) + u.tasksCompleted
  {
    if k > 0 {
      assert users[k := u][1..] == users[1..][k - 1 := u];
      TotalCompletedUpdate(users[1..], k - 1, u);
    } else {
      assert users[k := u][1..] == users[1..];
    }
  }
}
