/** The request and response models of db/schemas.py: a request body is a map from field names to
    the string values it carries; validation either builds the model or lists the failing fields. */
module Schemas {
  import opened Common
  import Models

  const MinPasswordLength: nat := 8
  const MaxTitleLength: nat := 50
  const MaxDescriptionLength: nat := 500

  /** `StatusEnum`, a string enumeration with two members. */
  datatype StatusEnum = InProcess | Finished

  function StatusValue(s: StatusEnum): string {
    match s
    case InProcess => "in process"
    case Finished => "finished"
  }

  /** Accepts exactly the two member values. */
  function ParseStatus(s: string): (r: Option<StatusEnum>)
    ensures r.Some? <==> s == "in process" || s == "finished"
    ensures r.Some? ==> StatusValue(r.value) == s
  {
    if s == "in process" then Some(InProcess)
    else if s == "finished" then Some(Finished)
    else None
  }

  lemma StatusRoundTrip(e: StatusEnum)
    ensures ParseStatus(StatusValue(e)) == Some(e)
  {
  }

  /** A rejected body: the names of the fields that failed, in declaration order (answered with 422). */
  datatype ValidationError = ValidationError(fields: seq<string>) {
    function Status(): int { UnprocessableEntity }
  }

  datatype UserCreate = UserCreate(username: string, email: string, password: string)

  datatype TaskCreate = TaskCreate(title: string, description: string, status: StatusEnum)

  /** `UserResponse`: id, username and email, and nothing else. */
  datatype UserResponse = UserResponse(id: int, username: string, email: string)

  /** What a well-formed `UserCreate` satisfies beyond its e-mail, which `EmailStr` vouches for. */
  ghost predicate ValidUserCreate(u: UserCreate) {
    |u.password| >= MinPasswordLength
  }

  ghost predicate ValidTaskCreate(t: TaskCreate) {
    |t.title| <= MaxTitleLength && |t.description| <= MaxDescriptionLength
  }

  /** `EmailStr` validates an address and returns it normalised (the e-mail syntax and the
      normalisation rules are abstract): `None` for a malformed address, otherwise the address
      that is stored. A normaliser is idempotent: a normalised address validates to itself. */
  ghost predicate IdempotentNormaliser(validateEmail: string -> Option<string>) {
    forall s :: validateEmail(s).Some? ==> validateEmail(validateEmail(s).value) == validateEmail(s)
  }

  function UserCreateErrors(body: map<string, string>, validateEmail: string -> Option<string>): (errs: seq<string>)
    ensures "username" in errs <==> "username" !in body
    ensures "email" in errs <==> "email" !in body || validateEmail(body["email"]).None?
    ensures "password" in errs <==> "password" !in body || |body["password"]| < MinPasswordLength
    ensures forall f :: f in errs ==> f in {"username", "email", "password"}
  {
    (if "username" !in body then ["username"] else [])
    + (if "email" !in body || validateEmail(body["email"]).None? then ["email"] else [])
    + (if "password" !in body || |body["password"]| < MinPasswordLength then ["password"] else [])
  }

  /** Validation of a registration body: every field is required, the e-mail must be well formed
      (and is kept in its normalised form) and the password at least 8 characters long. Extra
      fields are ignored. */
  function ParseUserCreate(body: map<string, string>, validateEmail: string -> Option<string>)
    : (r: Result<UserCreate, ValidationError>)
    ensures r.Success? <==>
      && "username" in body && "email" in body && "password" in body
      && validateEmail(body["email"]).Some? && |body["password"]| >= MinPasswordLength
    ensures r.Success? ==>
      && r.value == UserCreate(body["username"], validateEmail(body["email"]).value, body["password"])
      && ValidUserCreate(r.value)
    ensures r.Failure? ==> r.error.fields == UserCreateErrors(body, validateEmail)
    ensures r.Failure? ==> r.error.fields != [] && r.error.Status() == 422
  {
    var errs := UserCreateErrors(body, validateEmail);
    if errs == [] then Success(UserCreate(body["username"], validateEmail(body["email"]).value, body["password"]))
    else Failure(ValidationError(errs))
  }

  /** The body a `UserCreate` would be sent as. */
  function UserCreateBody(u: UserCreate): map<string, string> {
    map["username" := u.username, "email" := u.email, "password" := u.password]
  }

  /** With an idempotent normaliser, submitting an accepted registration again yields the same
      model: validation is stable on its own output. */
  lemma ParseUserCreateStable(body: map<string, string>, validateEmail: string -> Option<string>)
    requires IdempotentNormaliser(validateEmail)
    requires ParseUserCreate(body, validateEmail).Success?
    ensures ParseUserCreate(UserCreateBody(ParseUserCreate(body, validateEmail).value), validateEmail)
         == ParseUserCreate(body, validateEmail)
  {
  }

  function TaskCreateErrors(body: map<string, string>): (errs: seq<string>)
    ensures "title" in errs <==> "title" !in body || |body["title"]| > MaxTitleLength
    ensures "description" in errs <==> "description" !in body || |body["description"]| > MaxDescriptionLength
    ensures "status" in errs <==> "status" !in body || ParseStatus(body["status"]).None?
    ensures forall f :: f in errs ==> f in {"title", "description", "status"}
  {
    (if "title" !in body || |body["title"]| > MaxTitleLength then ["title"] else [])
    + (if "description" !in body || |body["description"]| > MaxDescriptionLength then ["description"] else [])
    + (if "status" !in body || ParseStatus(body["status"]).None? then ["status"] else [])
  }

  /** Validation of a task body: title at most 50 characters, description at most 500, status one of
      the two enumeration values; all three are required. */
  function ParseTaskCreate(body: map<string, string>): (r: Result<TaskCreate, ValidationError>)
    ensures r.Success? <==>
      && "title" in body && "description" in body && "status" in body
      && |body["title"]| <= MaxTitleLength && |body["description"]| <= MaxDescriptionLength
      && (body["status"] == "in process" || body["status"] == "finished")
    ensures r.Success? ==>
      && r.value.title == body["title"] && r.value.description == body["description"]
      && StatusValue(r.value.status) == body["status"]
      && ValidTaskCreate(r.value)
    ensures r.Failure? ==> r.error.fields == TaskCreateErrors(body)
    ensures r.Failure? ==> r.error.fields != [] && r.error.Status() == 422
  {
    var errs := TaskCreateErrors(body);
    if errs == [] then
      Success(TaskCreate(body["title"], body["description"], ParseStatus(body["status"]).value))
    else Failure(ValidationError(errs))
  }

  /** Building a `UserResponse` from a stored user (`from_attributes`). */
  function ToUserResponse(u: Models.User): (r: UserResponse)
    ensures r.id == u.id && r.username == u.username && r.email == u.email
  {
    UserResponse(u.id, u.username, u.email)
  }

  /** The response does not depend on the stored hash, so it cannot reveal it. */
  lemma UserResponseHidesHash(u: Models.User, otherHash: string)
    ensures ToUserResponse(u) == ToUserResponse(u.(hashedPassword := otherHash))
  {
  }
}
