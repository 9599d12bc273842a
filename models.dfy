/** The `users` and `tasks` tables (db/models.py) as record datatypes and the table invariants. */
module Models {
  import opened Common

  /** A row of `users`. The only password-related column is the hash. */
  datatype User = User(id: int, username: string, email: string, hashedPassword: string)

  /** A row of `tasks`. `name`, `status` and `owner_id` are nullable; name and status are unset at
      creation, and the owner is cleared when the owning user is deleted. */
  datatype Task = Task(id: int, name: Option<string>, description: string, status: Option<bool>, ownerId: Option<int>)

  /** Primary key of `users`. */
  ghost predicate UniqueUserIds(users: seq<User>) {
    forall i, j :: 0 <= i < j < |users| ==> users[i].id != users[j].id
  }

  /** The unique index on `users.username`. */
  ghost predicate UniqueUsernames(users: seq<User>) {
    forall i, j :: 0 <= i < j < |users| ==> users[i].username != users[j].username
  }

  /** The unique index on `users.email`. */
  ghost predicate UniqueEmails(users: seq<User>) {
    forall i, j :: 0 <= i < j < |users| ==> users[i].email != users[j].email
  }

  /** Primary key of `tasks`. */
  ghost predicate UniqueTaskIds(tasks: seq<Task>) {
    forall i, j :: 0 <= i < j < |tasks| ==> tasks[i].id != tasks[j].id
  }

  /** What the schema's constraints guarantee of every committed state. */
  ghost predicate ValidTables(users: seq<User>, tasks: seq<Task>) {
    UniqueUserIds(users) && UniqueUsernames(users) && UniqueEmails(users) && UniqueTaskIds(tasks)
  }

  /** The declared foreign key `tasks.owner_id -> users.id`: a non-NULL owner names a stored user.
      SQLite does not enforce it by default, so it is not part of ValidTables. */
  ghost predicate OwnersExist(users: seq<User>, tasks: seq<Task>) {
    forall t :: t in tasks && t.ownerId.Some? ==> exists u :: u in users && u.id == t.ownerId.value
  }

  /** The id SQLite assigns to a new row of an INTEGER PRIMARY KEY table without AUTOINCREMENT:
      one more than the largest id present, or 1 for an empty table. */
  function MaxUserId(users: seq<User>): (m: int)
    ensures forall u :: u in users ==> u.id <= m
    ensures users != [] ==> exists u :: u in users && u.id == m
    ensures users == [] ==> m == 0
  {
    if users == [] then 0
    else
      var rest := MaxUserId(users[1..]);
      assert forall u :: u in users[1..] ==> u in users;
      if users[0].id > rest || users[1..] == [] then users[0].id else rest
  }

  function NextUserId(users: seq<User>): (id: int)
    ensures forall u :: u in users ==> u.id < id
  {
    MaxUserId(users) + 1
  }

  function MaxTaskId(tasks: seq<Task>): (m: int)
    ensures forall t :: t in tasks ==> t.id <= m
    ensures tasks != [] ==> exists t :: t in tasks && t.id == m
    ensures tasks == [] ==> m == 0
  {
    if tasks == [] then 0
    else
      var rest := MaxTaskId(tasks[1..]);
      assert forall t :: t in tasks[1..] ==> t in tasks;
      if tasks[0].id > rest || tasks[1..] == [] then tasks[0].id else rest
  }

  function NextTaskId(tasks: seq<Task>): (id: int)
    ensures forall t :: t in tasks ==> t.id < id
  {
    MaxTaskId(tasks) + 1
  }

  /** Removing one element from a sequence with unique user ids removes exactly the user with that id. */
  lemma RemoveAtRemovesOnlyThatId(users: seq<User>, i: int)
    requires UniqueUserIds(users)
    requires 0 <= i < |users|
    ensures forall u :: u in users[..i] + users[i+1..] <==> u in users && u.id != users[i].id
  {
  }
}
