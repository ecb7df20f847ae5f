/** The read side of service/TaskService.java: the response mappers and the
    stream pipelines of getAllTasks, getTaskById, getTasksByUser and
    getAppliedTasks, over the task, application and user tables. */
module TaskQueries {
  import opened Wrappers
  import opened Text
  import opened Seqs
  import opened Entities
  import opened Requests
  import opened Database
  import Lifecycle

  // ---------------------------------------------------------------- responses

  datatype ApplicationResponse = ApplicationResponse(
    id: Id,
    workerId: Id,
    workerName: string,
    workerRating: real,
    message: Option<string>,
    proposedBudget: Option<int>,
    status: string,
    appliedAt: Option<Time>)

  datatype TaskResponse = TaskResponse(
    id: Id,
    title: string,
    description: string,
    category: string,
    budget: int,
    urgency: string,
    status: string,
    location: Option<LocationDto>,
    createdBy: Id,
    createdByName: string,
    createdAt: Option<Time>,
    applications: seq<ApplicationResponse>,
    acceptedWorker: Option<Id>)

  /** Every worker an application names is a stored user. */
  predicate WorkersKnown(apps: seq<Application>, users: seq<User>) {
    UserIdsInOrder(users) && forall a :: a in apps ==> 1 <= a.worker <= |users|
  }

  /** Every owner a task names is a stored user. */
  predicate OwnersKnown(ts: seq<Task>, users: seq<User>) {
    forall t :: t in ts ==> 1 <= t.createdBy <= |users|
  }

  lemma WellFormedLinks(tasks: seq<Task>, apps: seq<Application>, users: seq<User>, clock: Time)
    requires WellFormed(tasks, apps, users, clock)
    ensures WorkersKnown(apps, users) && OwnersKnown(tasks, users)
    ensures TaskIdsInOrder(tasks) && ApplicationIdsInOrder(apps) && UserIdsInOrder(users)
  {
    forall a | a in apps ensures 1 <= a.worker <= |users| {
      var k :| 0 <= k < |apps| && apps[k] == a;
      assert ApplicationRowOk(apps[k], k, |tasks|, |users|, clock);
    }
    forall t | t in tasks ensures 1 <= t.createdBy <= |users| {
      var k :| 0 <= k < |tasks| && tasks[k] == t;
      assert TaskRowOk(tasks[k], k, |users|, clock);
    }
  }

  /** `toApplicationResponse`: a projection of the row and its worker. */
  function ToApplicationResponse(a: Application, users: seq<User>): (r: ApplicationResponse)
    requires UserIdsInOrder(users) && 1 <= a.worker <= |users|
    ensures r.id == a.id && r.workerId == a.worker && r.status == a.status.Name()
    ensures r.workerName == users[a.worker - 1].name && r.workerRating == users[a.worker - 1].rating
    ensures r.message == a.message && r.proposedBudget == a.proposedBudget && r.appliedAt == a.appliedAt
  {
    var w := users[a.worker - 1];
    ApplicationResponse(a.id, w.id, w.name, w.rating, a.message, a.proposedBudget, a.status.Name(), a.appliedAt)
  }

  function ApplicationResponses(apps: seq<Application>, users: seq<User>): (r: seq<ApplicationResponse>)
    requires WorkersKnown(apps, users)
    ensures |r| == |apps|
    ensures forall i :: 0 <= i < |apps| ==> r[i] == ToApplicationResponse(apps[i], users)
  {
    if apps == [] then []
    else [ToApplicationResponse(apps[0], users)] + ApplicationResponses(apps[1..], users)
  }

  function ToLocationDto(l: Location): LocationDto {
    LocationDto(l.lat, l.lng, l.address)
  }

  /** `toTaskResponse`: a projection of the row, its owner, and the
      applications `findByTaskId` returns for it. */
  function ToTaskResponse(t: Task, apps: seq<Application>, users: seq<User>): (r: TaskResponse)
    requires WorkersKnown(apps, users) && 1 <= t.createdBy <= |users|
    ensures r.id == t.id && r.title == t.title && r.description == t.description
    ensures r.category == t.category && r.budget == t.budget && r.createdAt == t.createdAt
    ensures UrgencyValueOf(r.urgency) == Some(t.urgency) && r.status == t.status.Name()
    ensures r.location.None? <==> t.location.None?
    ensures t.location.Some? ==> r.location == Some(ToLocationDto(t.location.value))
    ensures r.createdBy == t.createdBy && r.createdByName == users[t.createdBy - 1].name
    ensures r.applications == ApplicationResponses(FindByTask(apps, t.id), users)
    ensures r.acceptedWorker == t.acceptedWorker
  {
    UrgencyNameRoundTrip(t.urgency);
    var owner := users[t.createdBy - 1];
    var mine := FindByTask(apps, t.id);
    TaskResponse(t.id, t.title, t.description, t.category, t.budget, t.urgency.Name(), t.status.Name(),
                 if t.location.Some? then Some(ToLocationDto(t.location.value)) else None,
                 owner.id, owner.name, t.createdAt, ApplicationResponses(mine, users), t.acceptedWorker)
  }

  function TaskResponses(ts: seq<Task>, apps: seq<Application>, users: seq<User>): (r: seq<TaskResponse>)
    requires WorkersKnown(apps, users) && OwnersKnown(ts, users)
    ensures |r| == |ts|
    ensures forall i :: 0 <= i < |ts| ==> r[i] == ToTaskResponse(ts[i], apps, users)
  {
    if ts == [] then []
    else [ToTaskResponse(ts[0], apps, users)] + TaskResponses(ts[1..], apps, users)
  }

  // ---------------------------------------------------------------- getAllTasks

  /** The four optional query parameters of getAllTasks. */
  datatype TaskFilter = TaskFilter(category: Option<string>, urgency: Option<string>,
                                   status: Option<string>, search: Option<string>)

  /** A parameter constrains the result only when it is non-null and non-empty. */
  predicate Imposes(p: Option<string>) {
    p.Some? && p.value != ""
  }

  predicate CategoryStep(t: Task, f: TaskFilter) {
    !Imposes(f.category) || EqualsIgnoreCase(t.category, f.category.value)
  }

  predicate UrgencyStep(t: Task, f: TaskFilter) {
    !Imposes(f.urgency) || EqualsIgnoreCase(t.urgency.Name(), f.urgency.value)
  }

  predicate StatusStep(t: Task, f: TaskFilter) {
    !Imposes(f.status) || EqualsIgnoreCase(t.status.Name(), f.status.value)
  }

  predicate SearchStep(t: Task, f: TaskFilter) {
    !Imposes(f.search)
    || Contains(ToLower(t.title), ToLower(f.search.value))
    || Contains(ToLower(t.description), ToLower(f.search.value))
  }

  /** The four `.filter` stages of getAllTasks, in the order they run. */
  function FilterTasks(ts: seq<Task>, f: TaskFilter): seq<Task> {
    var byCategory := Filter(ts, (t: Task) => CategoryStep(t, f));
    var byUrgency := Filter(byCategory, (t: Task) => UrgencyStep(t, f));
    var byStatus := Filter(byUrgency, (t: Task) => StatusStep(t, f));
    Filter(byStatus, (t: Task) => SearchStep(t, f))
  }

  /** What a listed task satisfies, stated directly: category, urgency and
      status equal the given ones ignoring case, and the search text occurs,
      ignoring case, in the title or the description. */
  predicate Matches(t: Task, f: TaskFilter) {
    && (!Imposes(f.category) || EqualsIgnoreCase(t.category, f.category.value))
    && (!Imposes(f.urgency) || EqualsIgnoreCase(t.urgency.Name(), f.urgency.value))
    && (!Imposes(f.status) || EqualsIgnoreCase(t.status.Name(), f.status.value))
    && (!Imposes(f.search) || ContainsIgnoreCase(t.title, f.search.value)
                           || ContainsIgnoreCase(t.description, f.search.value))
  }

  /** The four stages together accept exactly the matching tasks. */
  lemma StagesAgree(t: Task, f: TaskFilter)
    ensures (CategoryStep(t, f) && UrgencyStep(t, f) && StatusStep(t, f) && SearchStep(t, f)) == Matches(t, f)
  {
    if Imposes(f.search) {
      ContainsLowerIsContainsIgnoreCase(t.title, f.search.value);
      ContainsLowerIsContainsIgnoreCase(t.description, f.search.value);
    }
  }

  /** The staged pipeline keeps exactly the tasks that match, in their order. */
  lemma {:induction false} FilterTasksIsMatches(ts: seq<Task>, f: TaskFilter)
    ensures FilterTasks(ts, f) == Filter(ts, (t: Task) => Matches(t, f))
  {
    if ts != [] {
      FilterTasksIsMatches(ts[1..], f);
      StagesAgree(ts[0], f);
    }
  }

  /** getAllTasks: every stored task that passes every filter given, newest
      first, as responses. No status filter means tasks of every status. */
  function GetAllTasks(tasks: seq<Task>, apps: seq<Application>, users: seq<User>, f: TaskFilter)
    : (r: seq<TaskResponse>)
    requires WorkersKnown(apps, users) && OwnersKnown(tasks, users)
    ensures r == TaskResponses(FilterTasks(FindAllByOrderByCreatedAtDesc(tasks), f), apps, users)
    ensures |r| == |FilterTasks(FindAllByOrderByCreatedAtDesc(tasks), f)|
    ensures forall i :: 0 <= i < |r| ==>
              exists t :: t in tasks && Matches(t, f) && r[i] == ToTaskResponse(t, apps, users)
  {
    var listed := FilterTasks(FindAllByOrderByCreatedAtDesc(tasks), f);
    ListedAreStoredMatches(tasks, f);
    var r := TaskResponses(listed, apps, users);
    assert forall i :: 0 <= i < |r| ==> listed[i] in listed;
    r
  }

  /** Every task getAllTasks lists is a stored task that passes the filters. */
  lemma ListedAreStoredMatches(tasks: seq<Task>, f: TaskFilter)
    ensures forall t :: t in FilterTasks(FindAllByOrderByCreatedAtDesc(tasks), f) ==> t in tasks && Matches(t, f)
  {
    var all := FindAllByOrderByCreatedAtDesc(tasks);
    forall t | t in all ensures t in tasks {
      var i :| 0 <= i < |all| && all[i] == t;
      assert tasks[|tasks| - 1 - i] == t;
    }
    FilterTasksIsMatches(all, f);
  }

  /** The tasks getAllTasks lists are exactly the stored tasks that match,
      newest first, and in the repository's order. */
  lemma GetAllTasksSelection(tasks: seq<Task>, f: TaskFilter)
    requires forall i, j :: 0 <= i < j < |tasks| ==> CreatedBefore(tasks[i], tasks[j])
    ensures forall t :: t in FilterTasks(FindAllByOrderByCreatedAtDesc(tasks), f) <==> t in tasks && Matches(t, f)
    ensures IsSubsequence(FilterTasks(FindAllByOrderByCreatedAtDesc(tasks), f), FindAllByOrderByCreatedAtDesc(tasks))
    ensures Ordered(FilterTasks(FindAllByOrderByCreatedAtDesc(tasks), f), NewerFirst)
  {
    var all := FindAllByOrderByCreatedAtDesc(tasks);
    FilterTasksIsMatches(all, f);
    FilterIsSubsequence(all, (t: Task) => Matches(t, f));
    NewestFirstIsSorted(tasks);
    assert forall t :: t in all <==> t in multiset(tasks);
    SubsequenceKeepsOrder(FilterTasks(all, f), all, NewerFirst);
  }

  /** With every parameter null or empty nothing is filtered out. */
  lemma NoFilterListsEverything(ts: seq<Task>, f: TaskFilter)
    requires !Imposes(f.category) && !Imposes(f.urgency) && !Imposes(f.status) && !Imposes(f.search)
    ensures FilterTasks(ts, f) == ts
  {
    FilterTasksIsMatches(ts, f);
    FilterAll(ts, (t: Task) => Matches(t, f));
  }

  // ---------------------------------------------------------------- getTaskById

  /** getTaskById: the task's response, or NotFound. */
  function GetTaskById(tasks: seq<Task>, apps: seq<Application>, users: seq<User>, id: Id)
    : (r: Result<TaskResponse, Error>)
    requires TaskIdsInOrder(tasks) && WorkersKnown(apps, users) && OwnersKnown(tasks, users)
    ensures r.Failure? <==> forall k :: 0 <= k < |tasks| ==> tasks[k].id != id
    ensures r.Failure? ==> r.error == NotFound("Task not found with id: " + DecimalText(id))
    ensures r.Success? ==> r.value == ToTaskResponse(tasks[id - 1], apps, users)
  {
    match FindTaskById(tasks, id)
    case None => Failure(NotFound("Task not found with id: " + DecimalText(id)))
    case Some(t) => Success(ToTaskResponse(t, apps, users))
  }

  // ---------------------------------------------------------------- getTasksByUser

  /** getTasksByUser: NotFound for an unknown user; otherwise every task the
      user created, newest first. */
  function GetTasksByUser(tasks: seq<Task>, apps: seq<Application>, users: seq<User>, userId: Id)
    : (r: Result<seq<TaskResponse>, Error>)
    requires WorkersKnown(apps, users) && OwnersKnown(tasks, users)
    ensures r.Failure? <==> !(1 <= userId <= |users|)
    ensures r.Failure? ==> r.error == NotFound("User not found")
    ensures r.Success? ==> forall i :: 0 <= i < |r.value| ==> r.value[i].createdBy == userId
    ensures r.Success? ==> r.value == TaskResponses(FindByCreatedByOrderByCreatedAtDesc(tasks, userId), apps, users)
  {
    match FindUserById(users, userId)
    case None => Failure(NotFound("User not found"))
    case Some(user) =>
      var mine := FindByCreatedByOrderByCreatedAtDesc(tasks, user.id);
      Success(TaskResponses(mine, apps, users))
  }

  /** The tasks getTasksByUser lists are exactly the user's, newest first. */
  lemma TasksByUserSelection(tasks: seq<Task>, owner: Id)
    requires forall i, j :: 0 <= i < j < |tasks| ==> CreatedBefore(tasks[i], tasks[j])
    ensures forall t :: t in FindByCreatedByOrderByCreatedAtDesc(tasks, owner) <==> t in tasks && t.createdBy == owner
    ensures Ordered(FindByCreatedByOrderByCreatedAtDesc(tasks, owner), NewerFirst)
  {
    var all := FindAllByOrderByCreatedAtDesc(tasks);
    NewestFirstIsSorted(tasks);
    assert forall t :: t in all <==> t in multiset(tasks);
    FilterIsSubsequence(all, (t: Task) => t.createdBy == owner);
    SubsequenceKeepsOrder(FindByCreatedByOrderByCreatedAtDesc(tasks, owner), all, NewerFirst);
  }

  // ---------------------------------------------------------------- getAppliedTasks

  /** Every task an application names is a stored task. */
  predicate TasksKnown(apps: seq<Application>, tasks: seq<Task>) {
    forall a :: a in apps ==> 1 <= a.task <= |tasks|
  }

  /** `app.getTask()` for each application: the rows its task ids name. */
  function TasksOf(mine: seq<Application>, tasks: seq<Task>): (r: seq<Task>)
    requires TasksKnown(mine, tasks)
    ensures |r| == |mine|
    ensures forall i :: 0 <= i < |mine| ==> r[i] == tasks[mine[i].task - 1]
    ensures TaskIdsInOrder(tasks) ==> forall i :: 0 <= i < |mine| ==> r[i].id == mine[i].task
  {
    if mine == [] then []
    else
      assert mine[0] in mine;
      [tasks[mine[0].task - 1]] + TasksOf(mine[1..], tasks)
  }

  /** getAppliedTasks: NotFound for an unknown user; otherwise the task of
      each of the user's applications, in application order, duplicates
      removed. */
  function GetAppliedTasks(tasks: seq<Task>, apps: seq<Application>, users: seq<User>, userId: Id)
    : (r: Result<seq<TaskResponse>, Error>)
    requires TasksKnown(apps, tasks) && WorkersKnown(apps, users) && OwnersKnown(tasks, users)
    ensures r.Failure? <==> !(1 <= userId <= |users|)
    ensures r.Failure? ==> r.error == NotFound("User not found")
    ensures r.Success? ==> NoDuplicates(r.value)
    ensures r.Success? ==> OwnersKnown(TasksOf(FindByWorker(apps, userId), tasks), users)
    ensures r.Success? ==> r.value == Distinct(TaskResponses(TasksOf(FindByWorker(apps, userId), tasks), apps, users))
  {
    match FindUserById(users, userId)
    case None => Failure(NotFound("User not found"))
    case Some(worker) =>
      var mine := FindByWorker(apps, worker.id);
      var rows := TasksOf(mine, tasks);
      assert forall t :: t in rows ==> t in tasks;
      Success(Distinct(TaskResponses(rows, apps, users)))
  }

  /** With one application per (task, worker), the worker's applications name
      distinct tasks, so `distinct()` removes nothing. */
  lemma AppliedTasksNeedNoDedup(tasks: seq<Task>, apps: seq<Application>, users: seq<User>, worker: Id)
    requires TaskIdsInOrder(tasks) && TasksKnown(apps, tasks) && WorkersKnown(apps, users) && OwnersKnown(tasks, users)
    requires Lifecycle.OneApplicationPerWorker(apps)
    ensures var rows := TasksOf(FindByWorker(apps, worker), tasks);
            OwnersKnown(rows, users) && Distinct(TaskResponses(rows, apps, users)) == TaskResponses(rows, apps, users)
  {
    var rows := TasksOf(FindByWorker(apps, worker), tasks);
    assert forall t :: t in rows ==> t in tasks;
    OneTaskPerApplication(apps, worker);
    DistinctOfNoDuplicates(TaskResponses(rows, apps, users), []);
  }

  /** Some row of `rows` is the task with this id. */
  predicate ListsTask(rows: seq<Task>, id: Id) {
    exists i :: 0 <= i < |rows| && rows[i].id == id
  }

  /** A task is among the worker's applied tasks exactly when the worker has
      applied to it. */
  lemma AppliedTasksAreApplications(tasks: seq<Task>, apps: seq<Application>, worker: Id, id: Id)
    requires TaskIdsInOrder(tasks) && TasksKnown(apps, tasks)
    ensures ListsTask(TasksOf(FindByWorker(apps, worker), tasks), id) <==> ExistsByTaskAndWorker(apps, id, worker)
  {
    if ListsTask(TasksOf(FindByWorker(apps, worker), tasks), id) {
      ListedTaskWasApplied(tasks, apps, worker, id);
    }
    if ExistsByTaskAndWorker(apps, id, worker) {
      AppliedTaskIsListed(tasks, apps, worker, id);
    }
  }

  lemma ListedTaskWasApplied(tasks: seq<Task>, apps: seq<Application>, worker: Id, id: Id)
    requires TaskIdsInOrder(tasks) && TasksKnown(apps, tasks)
    requires ListsTask(TasksOf(FindByWorker(apps, worker), tasks), id)
    ensures ExistsByTaskAndWorker(apps, id, worker)
  {
    var mine := FindByWorker(apps, worker);
    var rows := TasksOf(mine, tasks);
    var i :| 0 <= i < |rows| && rows[i].id == id;
    assert mine[i] in mine;
    var k :| 0 <= k < |apps| && apps[k] == mine[i];
    assert apps[k].task == id && apps[k].worker == worker;
  }

  lemma AppliedTaskIsListed(tasks: seq<Task>, apps: seq<Application>, worker: Id, id: Id)
    requires TaskIdsInOrder(tasks) && TasksKnown(apps, tasks)
    requires ExistsByTaskAndWorker(apps, id, worker)
    ensures ListsTask(TasksOf(FindByWorker(apps, worker), tasks), id)
  {
    var mine := FindByWorker(apps, worker);
    var rows := TasksOf(mine, tasks);
    var k :| 0 <= k < |apps| && apps[k].task == id && apps[k].worker == worker;
    assert apps[k] in mine;
    var i :| 0 <= i < |mine| && mine[i] == apps[k];
    assert rows[i].id == id;
  }

  /** The applications of one worker name pairwise different tasks. */
  lemma {:induction false} OneTaskPerApplication(apps: seq<Application>, worker: Id)
    requires Lifecycle.OneApplicationPerWorker(apps)
    ensures forall i, j :: 0 <= i < j < |FindByWorker(apps, worker)| ==>
              FindByWorker(apps, worker)[i].task != FindByWorker(apps, worker)[j].task
  {
    if apps != [] {
      var tail := apps[1..];
      assert Lifecycle.OneApplicationPerWorker(tail) by {
        forall i, j | 0 <= i < |tail| && 0 <= j < |tail| && tail[i].task == tail[j].task
                      && tail[i].worker == tail[j].worker
          ensures i == j
        {
          assert tail[i] == apps[i + 1] && tail[j] == apps[j + 1];
        }
      }
      OneTaskPerApplication(tail, worker);
      var rest := FindByWorker(tail, worker);
      if apps[0].worker == worker {
        var r := FindByWorker(apps, worker);
        assert r == [apps[0]] + rest;
        forall j | 0 <= j < |rest| ensures apps[0].task != rest[j].task {
          assert rest[j] in rest;
          var k :| 0 <= k < |tail| && tail[k] == rest[j];
          assert apps[k + 1] == rest[j] && apps[k + 1].worker == worker;
        }
        forall i, j | 0 <= i < j < |r| ensures r[i].task != r[j].task {
          assert r[j] == rest[j - 1];
          if i > 0 {
            assert r[i] == rest[i - 1];
          }
        }
      }
    }
  }
}
