/** The rules that tie a task's status to its applications, stated over the
    task and application tables, and the table updates each lifecycle
    operation of service/TaskService.java performs, with the proof that every
    one of them keeps the rules. */
module Lifecycle {
  import opened Wrappers
  import opened Entities
  import opened Seqs
  import opened Database

  // ---------------------------------------------------------------- invariants

  /** An OPEN task has no accepted worker and only PENDING applications. */
  predicate OpenTaskUntouched(t: Task, apps: seq<Application>) {
    t.acceptedWorker.None?
    && forall k :: 0 <= k < |apps| && apps[k].task == t.id ==> apps[k].status == Pending
  }

  /** The task's accepted worker is the worker of one of its ACCEPTED applications. */
  predicate HiredThroughApplication(t: Task, apps: seq<Application>) {
    t.acceptedWorker.Some?
    && exists k :: 0 <= k < |apps| && HiredBy(apps[k], t)
  }

  predicate HiredBy(a: Application, t: Task) {
    a.task == t.id && a.status == ApplicationStatus.Accepted && t.acceptedWorker == Some(a.worker)
  }

  /** The rule for one task, by status. No operation leads to IN_PROGRESS or
      CANCELLED, so no stored task has either. */
  predicate TaskConsistent(t: Task, apps: seq<Application>) {
    match t.status
    case Open => OpenTaskUntouched(t, apps)
    case Accepted | Completed => HiredThroughApplication(t, apps)
    case InProgress | Cancelled => false
  }

  predicate AcceptedFor(a: Application, task: Id) {
    a.task == task && a.status == ApplicationStatus.Accepted
  }

  /** No task has two ACCEPTED applications. */
  predicate AtMostOneAcceptedPerTask(apps: seq<Application>) {
    forall i, j ::
      (0 <= i < |apps| && 0 <= j < |apps| && AcceptedFor(apps[i], apps[j].task)
       && AcceptedFor(apps[j], apps[i].task)) ==> i == j
  }

  /** No worker has two applications on the same task. */
  predicate OneApplicationPerWorker(apps: seq<Application>) {
    forall i, j ::
      (0 <= i < |apps| && 0 <= j < |apps| && apps[i].task == apps[j].task
       && apps[i].worker == apps[j].worker) ==> i == j
  }

  predicate Invariant(tasks: seq<Task>, apps: seq<Application>) {
    && (forall k :: 0 <= k < |tasks| ==> TaskConsistent(tasks[k], apps))
    && AtMostOneAcceptedPerTask(apps)
    && OneApplicationPerWorker(apps)
  }

  /** The applications of a task that are ACCEPTED. */
  function AcceptedApplications(apps: seq<Application>, task: Id): seq<Application> {
    Filter(apps, (a: Application) => AcceptedFor(a, task))
  }

  /** An ACCEPTED or COMPLETED task has exactly one ACCEPTED application, and
      it is the application of the task's accepted worker. */
  lemma ExactlyOneAccepted(tasks: seq<Task>, apps: seq<Application>, k: int)
    requires Invariant(tasks, apps) && 0 <= k < |tasks|
    requires tasks[k].status in {TaskStatus.Accepted, TaskStatus.Completed}
    ensures |AcceptedApplications(apps, tasks[k].id)| == 1
    ensures Some(AcceptedApplications(apps, tasks[k].id)[0].worker) == tasks[k].acceptedWorker
  {
    var t := tasks[k];
    assert TaskConsistent(t, apps);
    var c :| 0 <= c < |apps| && HiredBy(apps[c], t);
    forall i | 0 <= i < |apps| && i != c ensures !AcceptedFor(apps[i], t.id) {
    }
    FilterSingle(apps, (a: Application) => AcceptedFor(a, t.id), c);
  }

  /** acceptApplication does not check that the chosen application is
      PENDING: an application of an OPEN task always is. */
  lemma ApplicationOfOpenTaskIsPending(tasks: seq<Task>, apps: seq<Application>, k: int, c: int)
    requires Invariant(tasks, apps) && 0 <= k < |tasks| && 0 <= c < |apps|
    requires tasks[k].status == Open && apps[c].task == tasks[k].id
    ensures apps[c].status == Pending
  {
    assert TaskConsistent(tasks[k], apps);
  }

  // ---------------------------------------------------------------- createTask

  /** A new OPEN task with no accepted worker and no applications keeps the rules. */
  lemma CreateKeepsInvariant(tasks: seq<Task>, apps: seq<Application>, t: Task)
    requires Invariant(tasks, apps)
    requires t.status == Open && t.acceptedWorker == None
    requires forall k :: 0 <= k < |apps| ==> apps[k].task != t.id
    ensures Invariant(tasks + [t], apps)
  {
    var tasks' := tasks + [t];
    forall k | 0 <= k < |tasks'| ensures TaskConsistent(tasks'[k], apps) {
      if k < |tasks| {
        assert tasks'[k] == tasks[k];
      }
    }
  }

  // ---------------------------------------------------------------- applyForTask

  /** Adding a PENDING application to an OPEN task, from a worker with no
      application on it yet, keeps the rules. */
  lemma ApplyKeepsInvariant(tasks: seq<Task>, apps: seq<Application>, k: int, a: Application)
    requires Invariant(tasks, apps) && TaskIdsInOrder(tasks)
    requires 0 <= k < |tasks| && tasks[k].status == Open && a.task == tasks[k].id
    requires a.status == Pending
    requires !ExistsByTaskAndWorker(apps, a.task, a.worker)
    ensures Invariant(tasks, apps + [a])
  {
    var apps' := apps + [a];
    forall m | 0 <= m < |tasks| ensures TaskConsistent(tasks[m], apps') {
      var t := tasks[m];
      assert TaskConsistent(t, apps);
      if t.status != Open {
        var c :| 0 <= c < |apps| && HiredBy(apps[c], t);
        assert HiredBy(apps'[c], t);
      }
    }
    assert forall i :: 0 <= i < |apps| ==> apps'[i] == apps[i];
  }

  // ---------------------------------------------------------------- acceptApplication

  /** What acceptApplication does to one application: the chosen one of the
      task becomes ACCEPTED, every other of the same task REJECTED, and an
      application of another task is left as it is. */
  function Decide(a: Application, task: Id, chosen: Id): Application {
    if a.task != task then a
    else if a.id == chosen then a.(status := ApplicationStatus.Accepted)
    else a.(status := Rejected)
  }

  /** The application table after acceptApplication(task, chosen). */
  function AfterAccept(apps: seq<Application>, task: Id, chosen: Id): (r: seq<Application>)
    ensures |r| == |apps|
  {
    seq(|apps|, i requires 0 <= i < |apps| => Decide(apps[i], task, chosen))
  }

  /** After accepting, exactly one application of the task is ACCEPTED (the
      chosen one), every other one of the task is REJECTED, and applications of
      other tasks are untouched. */
  lemma AfterAcceptOutcome(apps: seq<Application>, task: Id, c: int)
    requires ApplicationIdsInOrder(apps)
    requires 0 <= c < |apps| && apps[c].task == task
    ensures AcceptedApplications(AfterAccept(apps, task, apps[c].id), task)
            == [apps[c].(status := ApplicationStatus.Accepted)]
    ensures forall i :: 0 <= i < |apps| && i != c && apps[i].task == task ==>
              AfterAccept(apps, task, apps[c].id)[i] == apps[i].(status := Rejected)
    ensures forall i :: 0 <= i < |apps| && apps[i].task != task ==>
              AfterAccept(apps, task, apps[c].id)[i] == apps[i]
  {
    var r := AfterAccept(apps, task, apps[c].id);
    forall i | 0 <= i < |r| && i != c ensures !AcceptedFor(r[i], task) {
    }
    FilterSingle(r, (a: Application) => AcceptedFor(a, task), c);
  }

  /** Accepting an application of an OPEN task, and recording its worker as
      the task's accepted worker, keeps the rules. */
  lemma AcceptKeepsInvariant(tasks: seq<Task>, apps: seq<Application>, k: int, c: int, t': Task)
    requires Invariant(tasks, apps) && TaskIdsInOrder(tasks) && ApplicationIdsInOrder(apps)
    requires 0 <= k < |tasks| && tasks[k].status == Open
    requires 0 <= c < |apps| && apps[c].task == tasks[k].id
    requires t'.id == tasks[k].id && t'.status == TaskStatus.Accepted
    requires t'.acceptedWorker == Some(apps[c].worker)
    ensures Invariant(tasks[k := t'], AfterAccept(apps, tasks[k].id, apps[c].id))
  {
    var id := tasks[k].id;
    var tasks' := tasks[k := t'];
    var apps' := AfterAccept(apps, id, apps[c].id);
    forall m | 0 <= m < |tasks'| ensures TaskConsistent(tasks'[m], apps') {
      if m == k {
        assert HiredBy(apps'[c], t');
      } else {
        var t := tasks[m];
        assert tasks'[m] == t && t.id != id;
        assert TaskConsistent(t, apps);
        if t.status == Open {
          forall i | 0 <= i < |apps'| && apps'[i].task == t.id ensures apps'[i].status == Pending {
            assert apps'[i] == apps[i];
          }
        } else {
          var h :| 0 <= h < |apps| && HiredBy(apps[h], t);
          assert apps'[h] == apps[h];
          assert HiredBy(apps'[h], t);
        }
      }
    }
    assert AtMostOneAcceptedPerTask(apps') by {
      forall i, j | 0 <= i < |apps'| && 0 <= j < |apps'| && AcceptedFor(apps'[i], apps'[j].task)
                    && AcceptedFor(apps'[j], apps'[i].task)
        ensures i == j
      {
        if apps[i].task == id {
          assert i == c && j == c;
        } else {
          assert apps'[i] == apps[i] && apps'[j] == apps[j];
          if apps[j].task == id {
            assert false;
          }
        }
      }
    }
    assert OneApplicationPerWorker(apps') by {
      forall i, j | 0 <= i < |apps'| && 0 <= j < |apps'| && apps'[i].task == apps'[j].task
                    && apps'[i].worker == apps'[j].worker
        ensures i == j
      {
        assert apps'[i].task == apps[i].task && apps'[i].worker == apps[i].worker;
        assert apps'[j].task == apps[j].task && apps'[j].worker == apps[j].worker;
      }
    }
  }

  // ---------------------------------------------------------------- completeTask

  /** Marking an ACCEPTED task COMPLETED, keeping its accepted worker, keeps the rules. */
  lemma CompleteKeepsInvariant(tasks: seq<Task>, apps: seq<Application>, k: int, t': Task)
    requires Invariant(tasks, apps)
    requires 0 <= k < |tasks| && tasks[k].status == TaskStatus.Accepted
    requires t'.id == tasks[k].id && t'.status == Completed
    requires t'.acceptedWorker == tasks[k].acceptedWorker
    ensures Invariant(tasks[k := t'], apps)
  {
    assert TaskConsistent(tasks[k], apps);
    var h :| 0 <= h < |apps| && HiredBy(apps[h], tasks[k]);
    assert HiredBy(apps[h], t');
  }
}
