/** The persistence layer the services share: the task, application and user
    repositories as in-memory tables, with the lookups and orderings their
    derived queries promise (repository/TaskRepository.java,
    repository/ApplicationRepository.java) and the entity lifecycle hooks
    that run on save (@PrePersist onCreate, @PreUpdate onUpdate). */
module Database {
  import opened Wrappers
  import opened Entities
  import opened Seqs

  /** The failures the services surface: ResourceNotFoundException,
      BadRequestException, a rejected authentication, and a row the
      database refuses (a NOT NULL or column-length violation). */
  datatype Error = NotFound(message: string) | BadRequest(message: string) | Unauthenticated
                 | Persistence(column: string)

  // ---------------------------------------------------------------- row shape

  /** `a` was persisted strictly before `b`. */
  predicate CreatedBefore(a: Task, b: Task) {
    a.createdAt.Some? && b.createdAt.Some? && a.createdAt.value < b.createdAt.value
  }

  predicate UserRowOk(u: User, index: int, clock: Time) {
    u.id == index + 1 && u.createdAt.Some? && u.createdAt.value <= clock
  }

  predicate TaskRowOk(t: Task, index: int, userCount: nat, clock: Time) {
    && t.id == index + 1
    && 1 <= t.createdBy <= userCount
    && (t.acceptedWorker.Some? ==> 1 <= t.acceptedWorker.value <= userCount)
    && t.createdAt.Some? && t.updatedAt.Some?
    && t.createdAt.value <= t.updatedAt.value <= clock
    && |t.description| <= DescriptionColumnLength
  }

  predicate ApplicationRowOk(a: Application, index: int, taskCount: nat, userCount: nat, clock: Time) {
    && a.id == index + 1
    && 1 <= a.task <= taskCount
    && 1 <= a.worker <= userCount
    && a.appliedAt.Some? && a.appliedAt.value <= clock
    && (a.message.Some? ==> |a.message.value| <= MessageColumnLength)
  }

  predicate PhonesUnique(users: seq<User>) {
    forall i, j :: 0 <= i < j < |users| ==> users[i].phone != users[j].phone
  }

  /** What every state of the store satisfies: rows are numbered from 1 in
      insertion order, every foreign key names an existing row, timestamps
      are set and never ahead of the clock, tasks were created in id order,
      phones are unique and no column holds more than its declared length. */
  predicate WellFormed(tasks: seq<Task>, apps: seq<Application>, users: seq<User>, clock: Time) {
    && (forall i :: 0 <= i < |users| ==> UserRowOk(users[i], i, clock))
    && PhonesUnique(users)
    && (forall i :: 0 <= i < |tasks| ==> TaskRowOk(tasks[i], i, |users|, clock))
    && (forall i, j :: 0 <= i < j < |tasks| ==> CreatedBefore(tasks[i], tasks[j]))
    && (forall i :: 0 <= i < |apps| ==> ApplicationRowOk(apps[i], i, |tasks|, |users|, clock))
  }

  // ---------------------------------------------------------------- lookups

  predicate TaskIdsInOrder(tasks: seq<Task>) {
    forall i :: 0 <= i < |tasks| ==> tasks[i].id == i + 1
  }

  predicate ApplicationIdsInOrder(apps: seq<Application>) {
    forall i :: 0 <= i < |apps| ==> apps[i].id == i + 1
  }

  predicate UserIdsInOrder(users: seq<User>) {
    forall i :: 0 <= i < |users| ==> users[i].id == i + 1
  }

  /** `taskRepository.findById`. */
  function FindTaskById(tasks: seq<Task>, id: Id): (r: Option<Task>)
    requires TaskIdsInOrder(tasks)
    ensures r.Some? <==> exists k :: 0 <= k < |tasks| && tasks[k].id == id
    ensures r.Some? ==> r.value == tasks[id - 1] && r.value.id == id
  {
    if 1 <= id <= |tasks| then Some(tasks[id - 1]) else None
  }

  /** `applicationRepository.findById`. */
  function FindApplicationById(apps: seq<Application>, id: Id): (r: Option<Application>)
    requires ApplicationIdsInOrder(apps)
    ensures r.Some? <==> exists k :: 0 <= k < |apps| && apps[k].id == id
    ensures r.Some? ==> r.value == apps[id - 1] && r.value.id == id
  {
    if 1 <= id <= |apps| then Some(apps[id - 1]) else None
  }

  /** `userRepository.findById`. */
  function FindUserById(users: seq<User>, id: Id): (r: Option<User>)
    requires UserIdsInOrder(users)
    ensures r.Some? <==> exists k :: 0 <= k < |users| && users[k].id == id
    ensures r.Some? ==> r.value == users[id - 1] && r.value.id == id
  {
    if 1 <= id <= |users| then Some(users[id - 1]) else None
  }

  /** `userRepository.findByPhone`: the first user with that phone. */
  function FindUserByPhone(users: seq<User>, phone: string): (r: Option<User>)
    ensures r.None? <==> forall k :: 0 <= k < |users| ==> users[k].phone != phone
    ensures r.Some? ==> r.value in users && r.value.phone == phone
  {
    if users == [] then None
    else if users[0].phone == phone then Some(users[0])
    else
      var rest := FindUserByPhone(users[1..], phone);
      assert forall k :: 1 <= k < |users| ==> users[k] == users[1..][k - 1];
      rest
  }

  /** `userRepository.existsByPhone`. */
  predicate ExistsByPhone(users: seq<User>, phone: string) {
    exists k :: 0 <= k < |users| && users[k].phone == phone
  }

  /** With unique phones, the user found by a phone is the one holding it. */
  lemma {:induction false} FindUserByPhoneUnique(users: seq<User>, k: int)
    requires PhonesUnique(users) && 0 <= k < |users|
    ensures FindUserByPhone(users, users[k].phone) == Some(users[k])
  {
    if k > 0 {
      assert users[0].phone != users[k].phone;
      assert PhonesUnique(users[1..]) by {
        forall i, j | 0 <= i < j < |users[1..]| ensures users[1..][i].phone != users[1..][j].phone {
          assert users[1..][i] == users[i + 1] && users[1..][j] == users[j + 1];
        }
      }
      FindUserByPhoneUnique(users[1..], k - 1);
    }
  }

  /** `taskRepository.findAllByOrderByCreatedAtDesc`. */
  function FindAllByOrderByCreatedAtDesc(tasks: seq<Task>): (r: seq<Task>)
    ensures multiset(r) == multiset(tasks)
  {
    ReverseMultiset(tasks);
    Reverse(tasks)
  }

  /** Later-created first. */
  predicate NewerFirst(a: Task, b: Task) {
    CreatedBefore(b, a)
  }

  /** The repository's newest-first order: since rows are stored in creation
      order, reversing them sorts them by `createdAt`, newest first, and
      loses or adds nothing. */
  lemma NewestFirstIsSorted(tasks: seq<Task>)
    requires forall i, j :: 0 <= i < j < |tasks| ==> CreatedBefore(tasks[i], tasks[j])
    ensures Ordered(FindAllByOrderByCreatedAtDesc(tasks), NewerFirst)
    ensures multiset(FindAllByOrderByCreatedAtDesc(tasks)) == multiset(tasks)
  {
    var r := FindAllByOrderByCreatedAtDesc(tasks);
    forall i, j | 0 <= i < j < |r| ensures NewerFirst(r[i], r[j]) {
      assert r[i] == tasks[|tasks| - 1 - i] && r[j] == tasks[|tasks| - 1 - j];
    }
    ReverseMultiset(tasks);
  }

  lemma {:induction false} ReverseMultiset<T>(s: seq<T>)
    ensures multiset(Reverse(s)) == multiset(s)
  {
    if s != [] {
      ReverseMultiset(s[1..]);
      assert s == [s[0]] + s[1..];
    }
  }

  /** `taskRepository.findByCreatedByOrderByCreatedAtDesc`. */
  function FindByCreatedByOrderByCreatedAtDesc(tasks: seq<Task>, owner: Id): (r: seq<Task>)
    ensures forall t :: t in r <==> t in tasks && t.createdBy == owner
  {
    var all := FindAllByOrderByCreatedAtDesc(tasks);
    assert forall t :: t in all <==> t in multiset(tasks);
    Filter(all, (t: Task) => t.createdBy == owner)
  }

  /** `applicationRepository.findByTask` / `findByTaskId`, in id order. */
  function FindByTask(apps: seq<Application>, task: Id): (r: seq<Application>)
    ensures forall a :: a in r <==> a in apps && a.task == task
    ensures IsSubsequence(r, apps)
  {
    FilterIsSubsequence(apps, (a: Application) => a.task == task);
    Filter(apps, (a: Application) => a.task == task)
  }

  /** `applicationRepository.findByWorker`, in id order. */
  function FindByWorker(apps: seq<Application>, worker: Id): (r: seq<Application>)
    ensures forall a :: a in r <==> a in apps && a.worker == worker
    ensures IsSubsequence(r, apps)
  {
    FilterIsSubsequence(apps, (a: Application) => a.worker == worker);
    Filter(apps, (a: Application) => a.worker == worker)
  }

  /** `applicationRepository.existsByTaskAndWorker`. */
  predicate ExistsByTaskAndWorker(apps: seq<Application>, task: Id, worker: Id)
    ensures ExistsByTaskAndWorker(apps, task, worker) <==>
              exists a :: a in FindByTask(apps, task) && a.worker == worker
  {
    exists k :: 0 <= k < |apps| && apps[k].task == task && apps[k].worker == worker
  }

  // ---------------------------------------------------------------- the store

  class Store {
    var tasks: seq<Task>
    var applications: seq<Application>
    var users: seq<User>
    /** The logical clock behind `LocalDateTime.now()`; every hook advances it. */
    var clock: Time

    predicate Valid()
      reads this
    {
      WellFormed(tasks, applications, users, clock)
    }

    constructor ()
      ensures Valid()
      ensures tasks == [] && applications == [] && users == [] && clock == 0
    {
      tasks, applications, users, clock := [], [], [], 0;
    }

    /** `LocalDateTime.now()`: a reading later than every earlier one. */
    method Now() returns (now: Time)
      modifies this`clock
      ensures clock == old(clock) + 1 && now == clock
    {
      clock := clock + 1;
      now := clock;
    }

    /** `taskRepository.save` of a new task. The row gets the next id; its
        @PrePersist hook stamps `createdAt` and `updatedAt` with the current
        time (the hook reads the clock twice; the model uses one reading). A description longer than its column is refused and nothing
        is stored. */
    method InsertTask(t: Task) returns (r: Result<Task, Error>)
      requires Valid()
      requires 1 <= t.createdBy <= |users|
      requires t.acceptedWorker.Some? ==> 1 <= t.acceptedWorker.value <= |users|
      modifies this
      ensures Valid()
      ensures applications == old(applications) && users == old(users)
      ensures |t.description| > DescriptionColumnLength ==>
                r == Failure(Persistence("description")) && tasks == old(tasks) && clock == old(clock)
      ensures |t.description| <= DescriptionColumnLength ==>
                && clock == old(clock) + 1
                && r == Success(t.(id := |old(tasks)| + 1, createdAt := Some(clock), updatedAt := Some(clock)))
                && tasks == old(tasks) + [r.value]
    {
      if |t.description| > DescriptionColumnLength {
        return Failure(Persistence("description"));
      }
      var row := t.(id := |tasks| + 1);
      // onCreate
      var now := Now();
      row := row.(createdAt := Some(now), updatedAt := Some(now));
      tasks := tasks + [row];
      r := Success(row);
    }

    /** `taskRepository.save` of a stored task. Its @PreUpdate hook refreshes
        `updatedAt`; `createdAt` is not updatable and keeps the stored value. */
    method UpdateTask(t: Task) returns (row: Task)
      requires Valid()
      requires 1 <= t.id <= |tasks|
      requires 1 <= t.createdBy <= |users|
      requires t.acceptedWorker.Some? ==> 1 <= t.acceptedWorker.value <= |users|
      requires |t.description| <= DescriptionColumnLength
      modifies this
      ensures Valid()
      ensures applications == old(applications) && users == old(users)
      ensures clock == old(clock) + 1
      ensures row == t.(createdAt := old(tasks)[t.id - 1].createdAt, updatedAt := Some(clock))
      ensures tasks == old(tasks)[t.id - 1 := row]
    {
      // onUpdate
      var now := Now();
      row := t.(createdAt := tasks[t.id - 1].createdAt, updatedAt := Some(now));
      tasks := tasks[t.id - 1 := row];
    }

    /** `applicationRepository.save` of a new application. The row gets the
        next id and its @PrePersist hook stamps `appliedAt`. A message longer
        than its column is refused and nothing is stored. */
    method InsertApplication(a: Application) returns (r: Result<Application, Error>)
      requires Valid()
      requires 1 <= a.task <= |tasks| && 1 <= a.worker <= |users|
      modifies this
      ensures Valid()
      ensures tasks == old(tasks) && users == old(users)
      ensures a.message.Some? && |a.message.value| > MessageColumnLength ==>
                r == Failure(Persistence("message")) && applications == old(applications) && clock == old(clock)
      ensures a.message.None? || |a.message.value| <= MessageColumnLength ==>
                && clock == old(clock) + 1
                && r == Success(a.(id := |old(applications)| + 1, appliedAt := Some(clock)))
                && applications == old(applications) + [r.value]
    {
      if a.message.Some? && |a.message.value| > MessageColumnLength {
        return Failure(Persistence("message"));
      }
      var row := a.(id := |applications| + 1);
      // onCreate
      var now := Now();
      row := row.(appliedAt := Some(now));
      applications := applications + [row];
      r := Success(row);
    }

    /** `applicationRepository.save` of a stored application; `appliedAt` is
        not updatable and keeps the stored value. */
    method UpdateApplication(a: Application)
      requires Valid()
      requires 1 <= a.id <= |applications|
      requires 1 <= a.task <= |tasks| && 1 <= a.worker <= |users|
      requires a.message.Some? ==> |a.message.value| <= MessageColumnLength
      modifies this`applications
      ensures Valid()
      ensures applications == old(applications)[a.id - 1 := a.(appliedAt := old(applications)[a.id - 1].appliedAt)]
    {
      applications := applications[a.id - 1 := a.(appliedAt := applications[a.id - 1].appliedAt)];
    }

    /** `userRepository.save` of a new user, whose phone is not taken. */
    method InsertUser(u: User) returns (row: User)
      requires Valid()
      requires !ExistsByPhone(users, u.phone)
      modifies this
      ensures Valid()
      ensures tasks == old(tasks) && applications == old(applications)
      ensures clock == old(clock) + 1
      ensures row == u.(id := |old(users)| + 1, createdAt := Some(clock))
      ensures users == old(users) + [row]
    {
      var now := Now();
      row := u.(id := |users| + 1, createdAt := Some(now));
      users := users + [row];
    }

    /** `userRepository.save` of a stored user that keeps its phone and its
        creation time. */
    method UpdateUser(u: User)
      requires Valid()
      requires 1 <= u.id <= |users|
      requires u.phone == users[u.id - 1].phone && u.createdAt == users[u.id - 1].createdAt
      modifies this`users
      ensures Valid()
      ensures users == old(users)[u.id - 1 := u]
    {
      users := users[u.id - 1 := u];
    }
  }
}
