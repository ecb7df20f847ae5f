/** The request bodies and the Jakarta Validation constraints declared on
    them (dto/TaskRequest.java, dto/RegisterRequest.java). A validator is
    modelled by the list of violation messages it reports; a request is
    accepted exactly when that list is empty. */
module Requests {
  import opened Wrappers
  import opened Text
  import opened Entities

  datatype LocationDto = LocationDto(lat: Option<Coordinate>, lng: Option<Coordinate>, address: Option<string>)

  datatype TaskRequest = TaskRequest(
    title: Option<string>,
    description: Option<string>,
    category: Option<string>,
    budget: Option<int>,
    urgency: Option<string>,
    location: Option<LocationDto>)

  /** A request body that leaves out `urgency` and `location`: the field
      initialiser gives urgency "NORMAL", location stays null. */
  function NewTaskRequest(title: Option<string>, description: Option<string>, category: Option<string>,
                          budget: Option<int>): (r: TaskRequest)
    ensures r.urgency == Some("NORMAL") && r.location == None
    ensures r.title == title && r.description == description && r.category == category && r.budget == budget
  {
    TaskRequest(title, description, category, budget, Some("NORMAL"), None)
  }

  /** @NotBlank: present, with some char above U+0020. */
  predicate NotBlank(s: Option<string>) {
    s.Some? && !IsBlank(s.value)
  }

  /** The constraint messages a TaskRequest violates, in declaration order.
      @Min(1) passes a null budget; @NotNull reports it. */
  function TaskRequestViolations(r: TaskRequest): (v: seq<string>)
    ensures v == [] <==> NotBlank(r.title) && NotBlank(r.description) && NotBlank(r.category)
                         && r.budget.Some? && r.budget.value >= 1
    ensures !NotBlank(r.title) ==> "Title is required" in v
    ensures r.budget.Some? && r.budget.value < 1 ==> "Budget must be positive" in v
  {
    (if NotBlank(r.title) then [] else ["Title is required"])
    + (if NotBlank(r.description) then [] else ["Description is required"])
    + (if NotBlank(r.category) then [] else ["Category is required"])
    + (if r.budget.Some? then [] else ["Budget is required"])
    + (if r.budget.None? || r.budget.value >= 1 then [] else ["Budget must be positive"])
  }

  /** Registration input. The four strings are @NotBlank, so a request that
      reaches the service has them; `skills` may be sent as null. */
  datatype RegisterRequest = RegisterRequest(
    name: string,
    phone: string,
    password: string,
    role: string,
    skills: Option<seq<string>>)

  /** A request body that leaves out `skills`: the field initialiser gives an
      empty list. */
  function NewRegisterRequest(name: string, phone: string, password: string, role: string): (r: RegisterRequest)
    ensures r.skills == Some([])
    ensures r.name == name && r.phone == phone && r.password == password && r.role == role
  {
    RegisterRequest(name, phone, password, role, Some([]))
  }

  /** The constraint messages a RegisterRequest violates: @NotBlank on all
      four strings, @Size(min = 10, max = 10) on the phone, @Size(min = 6) on
      the password. */
  function RegisterRequestViolations(r: RegisterRequest): (v: seq<string>)
    ensures v == [] <==> !IsBlank(r.name) && !IsBlank(r.phone) && |r.phone| == 10
                         && !IsBlank(r.password) && |r.password| >= 6 && !IsBlank(r.role)
    ensures |r.phone| != 10 ==> "Phone must be 10 digits" in v
    ensures |r.password| < 6 ==> "Password must be at least 6 characters" in v
  {
    (if !IsBlank(r.name) then [] else ["Name is required"])
    + (if !IsBlank(r.phone) then [] else ["Phone is required"])
    + (if |r.phone| == 10 then [] else ["Phone must be 10 digits"])
    + (if !IsBlank(r.password) then [] else ["Password is required"])
    + (if |r.password| >= 6 then [] else ["Password must be at least 6 characters"])
    + (if !IsBlank(r.role) then [] else ["Role is required"])
  }

  /** The body of an application (ApplicationRequest is not part of this
      model; its two fields are those applyForTask reads). */
  datatype ApplicationRequest = ApplicationRequest(message: Option<string>, proposedBudget: Option<int>)

  /** Login input (LoginRequest is not part of this model; its two fields are
      those login reads). */
  datatype LoginRequest = LoginRequest(phone: string, password: string)
}
