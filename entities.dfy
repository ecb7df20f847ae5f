/** The persisted records: users, tasks and applications, with the enums
    they use and the builder defaults of entity/Task.java and
    entity/Application.java. Relations (@ManyToOne / @JoinColumn) are held as
    the referenced row's id, as the foreign-key column stores them. */
module Entities {
  import opened Wrappers

  /** A database id (`Long`, IDENTITY-generated from 1); 0 stands for the
      null id of an entity that has not been persisted yet. */
  type Id = nat

  /** A reading of the store's logical clock (`LocalDateTime.now()`). */
  type Time = nat

  /** A floating-point coordinate: carried from request to row, never computed on. */
  type Coordinate = real

  datatype TaskStatus = Open | Accepted | InProgress | Completed | Cancelled {
    /** `Enum.name()`. */
    function Name(): string {
      match this
      case Open => "OPEN"
      case Accepted => "ACCEPTED"
      case InProgress => "IN_PROGRESS"
      case Completed => "COMPLETED"
      case Cancelled => "CANCELLED"
    }
  }

  datatype UrgencyLevel = Normal | Urgent | Emergency {
    function Name(): string {
      match this
      case Normal => "NORMAL"
      case Urgent => "URGENT"
      case Emergency => "EMERGENCY"
    }
  }

  datatype ApplicationStatus = Pending | Accepted | Rejected {
    function Name(): string {
      match this
      case Pending => "PENDING"
      case Accepted => "ACCEPTED"
      case Rejected => "REJECTED"
    }
  }

  datatype Role = Seeker | Worker {
    function Name(): string {
      match this
      case Seeker => "SEEKER"
      case Worker => "WORKER"
    }
  }

  /** `UrgencyLevel.valueOf`: exact, case-sensitive match of a constant's
      name; None where Java throws IllegalArgumentException. */
  function UrgencyValueOf(name: string): (r: Option<UrgencyLevel>)
    ensures r.None? ==> forall u: UrgencyLevel :: u.Name() != name
    ensures r.Some? ==> r.value.Name() == name
  {
    if name == "NORMAL" then Some(Normal)
    else if name == "URGENT" then Some(Urgent)
    else if name == "EMERGENCY" then Some(Emergency)
    else None
  }

  /** `Role.valueOf`: exact, case-sensitive match of a constant's name. */
  function RoleValueOf(name: string): (r: Option<Role>)
    ensures r.None? ==> forall role: Role :: role.Name() != name
    ensures r.Some? ==> r.value.Name() == name
  {
    if name == "SEEKER" then Some(Seeker)
    else if name == "WORKER" then Some(Worker)
    else None
  }

  /** The embedded Location of a task. */
  datatype Location = Location(lat: Option<Coordinate>, lng: Option<Coordinate>, address: Option<string>)

  datatype User = User(
    id: Id,
    name: string,
    phone: string,
    password: string,        // the encoder's output, never the raw password
    role: Role,
    skills: seq<string>,
    rating: real,
    tasksCompleted: nat,
    createdAt: Option<Time>)

  datatype Task = Task(
    id: Id,
    title: string,
    description: string,
    category: string,
    budget: int,
    urgency: UrgencyLevel,
    status: TaskStatus,
    location: Option<Location>,
    createdBy: Id,
    acceptedWorker: Option<Id>,
    createdAt: Option<Time>,
    updatedAt: Option<Time>)

  datatype Application = Application(
    id: Id,
    task: Id,
    worker: Id,
    message: Option<string>,
    proposedBudget: Option<int>,
    status: ApplicationStatus,
    appliedAt: Option<Time>)

  /** Column lengths the schema declares: `description` (1000) and `message` (500). */
  const DescriptionColumnLength := 1000
  const MessageColumnLength := 500

  /** `Task.builder()...build()`. A status left out of the builder is the
      @Builder.Default OPEN; no accepted worker, no id and no timestamps
      until the row is persisted. */
  function BuildTask(title: string, description: string, category: string, budget: int,
                     urgency: UrgencyLevel, status: Option<TaskStatus>, location: Option<Location>,
                     createdBy: Id): (t: Task)
    ensures status.None? ==> t.status == Open
    ensures status.Some? ==> t.status == status.value
    ensures t.acceptedWorker == None && t.id == 0
    ensures t.createdAt == None && t.updatedAt == None
    ensures t.createdBy == createdBy && t.budget == budget && t.title == title
    ensures t.description == description && t.category == category && t.urgency == urgency
    ensures t.location == location
  {
    Task(0, title, description, category, budget, urgency, status.GetOr(Open), location,
         createdBy, None, None, None)
  }

  /** `Application.builder()...build()`. A status left out of the builder is
      the @Builder.Default PENDING; `appliedAt` is set only when persisted. */
  function BuildApplication(task: Id, worker: Id, message: Option<string>, proposedBudget: Option<int>,
                            status: Option<ApplicationStatus>): (a: Application)
    ensures status.None? ==> a.status == Pending
    ensures status.Some? ==> a.status == status.value
    ensures a.task == task && a.worker == worker && a.id == 0 && a.appliedAt == None
    ensures a.message == message && a.proposedBudget == proposedBudget
  {
    Application(0, task, worker, message, proposedBudget, status.GetOr(Pending), None)
  }

  /** Every urgency's name parses back to it. */
  lemma UrgencyNameRoundTrip(u: UrgencyLevel)
    ensures UrgencyValueOf(u.Name()) == Some(u)
  {
  }

  /** Every role's name parses back to it. */
  lemma RoleNameRoundTrip(role: Role)
    ensures RoleValueOf(role.Name()) == Some(role)
  {
  }
}
