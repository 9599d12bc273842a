/** db/crud.py: the queries are pure filters over the tables; the writes are methods of an
    in-memory Store whose two sequences stand for the committed rows of `users` and `tasks`. */
module Crud {
  import opened Common
  import opened Models
  import Passwords

  /** The error a commit raises when it would break a UNIQUE constraint. */
  datatype DbError = IntegrityError

  // ---------------------------------------------------------------------------------------------
  // Queries (`db.query(...).filter(...).first()` / `.all()`)

  /** The position of the first user with the given id. */
  function UserIndexById(users: seq<User>, userId: int): (r: Option<nat>)
    ensures r.Some? ==> r.value < |users| && users[r.value].id == userId
    ensures r.Some? ==> forall j :: 0 <= j < r.value ==> users[j].id != userId
    ensures r.None? <==> forall u :: u in users ==> u.id != userId
  {
    if users == [] then None
    else if users[0].id == userId then Some(0)
    else
      match UserIndexById(users[1..], userId)
      case None => None
      case Some(k) => Some(k + 1)
  }

  /** `get_user_by_username`: the first user with that username, or None exactly when there is none. */
  function GetUserByUsername(users: seq<User>, username: string): (r: Option<User>)
    ensures r.Some? ==> r.value in users && r.value.username == username
    ensures r.Some? ==> exists i :: 0 <= i < |users| && users[i] == r.value
                          && forall j :: 0 <= j < i ==> users[j].username != username
    ensures r.None? <==> forall u :: u in users ==> u.username != username
  {
    if users == [] then None
    else if users[0].username == username then Some(users[0])
    else
      var r := GetUserByUsername(users[1..], username);
      assert r.Some? ==> exists i :: 0 <= i < |users[1..]| && users[1..][i] == r.value
                          && forall j :: 0 <= j < i ==> users[1..][j].username != username;
      assert r.Some? ==> exists i :: 0 <= i < |users| && users[i] == r.value
                          && forall j :: 0 <= j < i ==> users[j].username != username by {
        if r.Some? {
          var i :| 0 <= i < |users[1..]| && users[1..][i] == r.value
                   && forall j :: 0 <= j < i ==> users[1..][j].username != username;
          assert users[i + 1] == r.value;
          assert forall j :: 0 <= j < i + 1 ==> users[j].username != username by {
            forall j | 0 <= j < i + 1 ensures users[j].username != username {
              if j > 0 { assert users[j] == users[1..][j - 1]; }
            }
          }
        }
      }
      r
  }

  /** `get_user_by_user_id`: the first user with that id, or None exactly when there is none. */
  function GetUserById(users: seq<User>, userId: int): (r: Option<User>)
    ensures r.Some? ==> r.value in users && r.value.id == userId
    ensures r.None? <==> forall u :: u in users ==> u.id != userId
  {
    match UserIndexById(users, userId)
    case None => None
    case Some(i) => Some(users[i])
  }

  /** `authenticate_user`: the user with that username, if the password verifies against its hash. */
  function AuthenticateUser(hasher: Passwords.Hasher, users: seq<User>, username: string, password: string): (r: Option<User>)
    ensures r.Some? ==> r.value in users && r.value.username == username
                        && hasher.verify(password, r.value.hashedPassword)
    ensures GetUserByUsername(users, username).None? ==> r.None?
  {
    match GetUserByUsername(users, username)
    case None => None
    case Some(u) => if hasher.verify(password, u.hashedPassword) then Some(u) else None
  }

  /** `get_tasks_by_user`, and the `User.tasks` relationship: the tasks whose owner_id is the
      given id, in table order. */
  function GetTasksByUser(tasks: seq<Task>, ownerId: int): (r: seq<Task>)
    ensures forall t :: t in r <==> t in tasks && t.ownerId == Some(ownerId)
    ensures |r| <= |tasks|
  {
    if tasks == [] then []
    else if tasks[0].ownerId == Some(ownerId) then [tasks[0]] + GetTasksByUser(tasks[1..], ownerId)
    else GetTasksByUser(tasks[1..], ownerId)
  }

  /** The position of the first task matching both the owner and the task id. */
  function OwnedTaskIndex(tasks: seq<Task>, ownerId: int, taskId: int): (r: Option<nat>)
    ensures r.Some? ==> r.value < |tasks| && tasks[r.value].ownerId == Some(ownerId) && tasks[r.value].id == taskId
    ensures r.None? <==> forall t :: t in tasks ==> !(t.ownerId == Some(ownerId) && t.id == taskId)
  {
    if tasks == [] then None
    else if tasks[0].ownerId == Some(ownerId) && tasks[0].id == taskId then Some(0)
    else
      match OwnedTaskIndex(tasks[1..], ownerId, taskId)
      case None => None
      case Some(k) => Some(k + 1)
  }

  /** `get_task_by_id`: the task with both that owner and that id; the falsy `[]` the source returns
      when nothing matches is None here. */
  function GetTaskById(tasks: seq<Task>, ownerId: int, taskId: int): (r: Option<Task>)
    ensures r.Some? ==> r.value in tasks && r.value.ownerId == Some(ownerId) && r.value.id == taskId
    ensures r.None? <==> forall t :: t in tasks ==> !(t.ownerId == Some(ownerId) && t.id == taskId)
  {
    match OwnedTaskIndex(tasks, ownerId, taskId)
    case None => None
    case Some(i) => Some(tasks[i])
  }

  /** What deleting a user does to its tasks through the `User.tasks` relationship (default cascade,
      no `passive_deletes`): the tasks it owns are loaded and their owner_id is set to NULL before
      the user row is deleted. The other tasks are untouched. */
  function DetachTasks(tasks: seq<Task>, userId: int): (r: seq<Task>)
    ensures |r| == |tasks|
    ensures forall k :: 0 <= k < |tasks| ==>
      r[k] == if tasks[k].ownerId == Some(userId) then tasks[k].(ownerId := None) else tasks[k]
  {
    seq(|tasks|, k requires 0 <= k < |tasks| =>
      if tasks[k].ownerId == Some(userId) then tasks[k].(ownerId := None) else tasks[k])
  }

  /** The UNIQUE columns a new row with this username and e-mail would collide on. */
  predicate InsertConflict(users: seq<User>, username: string, email: string) {
    exists u :: u in users && (u.username == username || u.email == email)
  }

  /** The UNIQUE columns that renaming user `userId` would collide on. */
  predicate UpdateConflict(users: seq<User>, userId: int, username: string, email: string) {
    exists u :: u in users && u.id != userId && (u.username == username || u.email == email)
  }

  // ---------------------------------------------------------------------------------------------
  // The store and its writes

  class Store {
    var users: seq<User>
    var tasks: seq<Task>

    ghost predicate Valid()
      reads this
    {
      ValidTables(users, tasks)
    }

    constructor ()
      ensures Valid() && users == [] && tasks == []
    {
      users := [];
      tasks := [];
    }

    /** `create_user`: stores the salted hash of the password, never the password. A commit that
        breaks a UNIQUE column is rolled back and the store is left as it was. */
    method CreateUser(hasher: Passwords.Hasher, salt: string, username: string, password: string, email: string)
      returns (r: Result<User, DbError>)
      requires Valid()
      modifies this
      ensures Valid()
      ensures tasks == old(tasks)
      ensures r.Failure? <==> InsertConflict(old(users), username, email)
      ensures r.Failure? ==> users == old(users)
      ensures r.Success? ==>
        && r.value == User(NextUserId(old(users)), username, email, hasher.hash(salt, password))
        && users == old(users) + [r.value]
    {
      var hashedPassword := hasher.hash(salt, password);
      var user := User(NextUserId(users), username, email, hashedPassword);
      if InsertConflict(users, username, email) {
        // db.rollback(); the error is re-raised
        r := Failure(IntegrityError);
      } else {
        users := users + [user];
        r := Success(user);
      }
    }

    /** `update_user`: sets only username and e-mail of the user with that id; an unknown id gives
        None and no change. A commit that breaks a UNIQUE column raises and commits nothing. */
    method UpdateUser(userId: int, email: string, username: string) returns (r: Result<Option<User>, DbError>)
      requires Valid()
      modifies this
      ensures Valid()
      ensures tasks == old(tasks)
      ensures UserIndexById(old(users), userId).None? ==> r == Success(None) && users == old(users)
      ensures UserIndexById(old(users), userId).Some? && UpdateConflict(old(users), userId, username, email) ==>
        r == Failure(IntegrityError) && users == old(users)
      ensures UserIndexById(old(users), userId).Some? && !UpdateConflict(old(users), userId, username, email) ==>
        var i := UserIndexById(old(users), userId).value;
        && users == old(users)[i := old(users)[i].(username := username, email := email)]
        && r == Success(Some(users[i]))
    {
      var found := UserIndexById(users, userId);
      if found.None? {
        r := Success(None);
      } else if UpdateConflict(users, userId, username, email) {
        r := Failure(IntegrityError);
      } else {
        var i := found.value;
        var user := users[i].(username := username, email := email);
        users := users[i := user];
        r := Success(Some(user));
      }
    }

    /** `delete_user`: removes the user with that id, if there is one, and clears the owner of
        every task it owned. Nothing is returned either way. */
    method DeleteUser(userId: int)
      requires Valid()
      modifies this
      ensures Valid()
      ensures UserIndexById(old(users), userId).None? ==> users == old(users) && tasks == old(tasks)
      ensures UserIndexById(old(users), userId).Some? ==>
        var i := UserIndexById(old(users), userId).value;
        && users == old(users)[..i] + old(users)[i+1..]
        && tasks == DetachTasks(old(tasks), userId)
      ensures forall u :: u in users <==> u in old(users) && u.id != userId
      ensures UserIndexById(old(users), userId).Some? ==> forall t :: t in tasks ==> t.ownerId != Some(userId)
    {
      var found := UserIndexById(users, userId);
      if found.Some? {
        var i := found.value;
        RemoveAtRemovesOnlyThatId(users, i);
        tasks := DetachTasks(tasks, userId);
        users := users[..i] + users[i+1..];
      }
    }

    /** `create_task`: a new task with only description and owner set. */
    method CreateTask(description: string, userId: int) returns (t: Task)
      requires Valid()
      modifies this
      ensures Valid()
      ensures users == old(users)
      ensures t == Task(NextTaskId(old(tasks)), None, description, None, Some(userId))
      ensures tasks == old(tasks) + [t]
    {
      t := Task(NextTaskId(tasks), None, description, None, Some(userId));
      tasks := tasks + [t];
    }

    /** `update_task`: sets name, description and status of the task matching both owner and id;
        with no match it returns None and changes nothing. */
    method UpdateTask(ownerId: int, taskId: int, name: string, description: string, status: bool)
      returns (r: Option<Task>)
      requires Valid()
      modifies this
      ensures Valid()
      ensures users == old(users)
      ensures OwnedTaskIndex(old(tasks), ownerId, taskId).None? ==> r == None && tasks == old(tasks)
      ensures OwnedTaskIndex(old(tasks), ownerId, taskId).Some? ==>
        var i := OwnedTaskIndex(old(tasks), ownerId, taskId).value;
        && tasks == old(tasks)[i := old(tasks)[i].(name := Some(name), description := description, status := Some(status))]
        && r == Some(tasks[i])
      ensures |tasks| == |old(tasks)|
      ensures forall k :: 0 <= k < |tasks| && old(tasks)[k].ownerId != Some(ownerId) ==> tasks[k] == old(tasks)[k]
    {
      var found := OwnedTaskIndex(tasks, ownerId, taskId);
      if found.None? {
        r := None;
      } else {
        var i := found.value;
        var task := tasks[i].(name := Some(name), description := description, status := Some(status));
        tasks := tasks[i := task];
        r := Some(task);
      }
    }

    /** `delete_task`: removes the task matching both owner and id, if there is one; nothing is
        returned either way. */
    method DeleteTask(ownerId: int, taskId: int)
      requires Valid()
      modifies this
      ensures Valid()
      ensures users == old(users)
      ensures OwnedTaskIndex(old(tasks), ownerId, taskId).None? ==> tasks == old(tasks)
      ensures OwnedTaskIndex(old(tasks), ownerId, taskId).Some? ==>
        var i := OwnedTaskIndex(old(tasks), ownerId, taskId).value;
        tasks == old(tasks)[..i] + old(tasks)[i+1..]
      ensures forall t :: t in old(tasks) && t.ownerId != Some(ownerId) ==> t in tasks
    {
      var found := OwnedTaskIndex(tasks, ownerId, taskId);
      if found.Some? {
        var i := found.value;
        ghost var before := tasks;
        tasks := tasks[..i] + tasks[i+1..];
        forall t | t in before && t.ownerId != Some(ownerId) ensures t in tasks {
          var k :| 0 <= k < |before| && before[k] == t;
          if k < i { assert tasks[k] == t; } else { assert k != i; assert tasks[k - 1] == t; }
        }
      }
    }
  }
}

/** Properties of the queries and writes of db/crud.py that relate several operations. */
module CrudProperties {
  import opened Common
  import opened Models
  import opened Crud
  import Passwords

  /** Under the unique index, two stored users with the same username are the same user. */
  lemma SameUsernameSameUser(users: seq<User>, a: User, b: User)
    requires UniqueUsernames(users)
    requires a in users && b in users && a.username == b.username
    ensures a == b
  {
  }

  /** Likewise for the primary key. */
  lemma SameIdSameUser(users: seq<User>, a: User, b: User)
    requires UniqueUserIds(users)
    requires a in users && b in users && a.id == b.id
    ensures a == b
  {
  }

  /** With unique usernames, authentication succeeds exactly when some stored user has that
      username and the password verifies against its hash; an unknown username and a wrong password
      both give the same None. */
  lemma AuthenticateUserIff(hasher: Passwords.Hasher, users: seq<User>, username: string, password: string)
    requires UniqueUsernames(users)
    ensures AuthenticateUser(hasher, users, username, password).Some? <==>
      exists u :: u in users && u.username == username && hasher.verify(password, u.hashedPassword)
    ensures forall u :: AuthenticateUser(hasher, users, username, password) == Some(u) ==>
      u in users && u.username == username && hasher.verify(password, u.hashedPassword)
  {
  }

  /** A user just appended by `create_user` is found by id and by username. */
  lemma CreatedUserRetrievable(users: seq<User>, u: User)
    requires UniqueUserIds(users + [u]) && UniqueUsernames(users + [u])
    ensures GetUserById(users + [u], u.id) == Some(u)
    ensures GetUserByUsername(users + [u], u.username) == Some(u)
  {
    var all := users + [u];
    assert u in all by { assert all[|users|] == u; }
    var byId := GetUserById(all, u.id);
    SameIdSameUser(all, byId.value, u);
    var byName := GetUserByUsername(all, u.username);
    SameUsernameSameUser(all, byName.value, u);
  }

  /** After `create_user` with a correct hasher, logging in with the same password succeeds, and
      the stored credential differs from the plaintext. */
  lemma RegisteredUserAuthenticates(hasher: Passwords.Hasher, users: seq<User>, u: User, salt: string, password: string)
    requires Passwords.Correct(hasher)
    requires UniqueUsernames(users + [u])
    requires u.hashedPassword == hasher.hash(salt, password)
    ensures AuthenticateUser(hasher, users + [u], u.username, password) == Some(u)
    ensures u.hashedPassword != password
  {
    var all := users + [u];
    assert u in all by { assert all[|users|] == u; }
    var byName := GetUserByUsername(all, u.username);
    SameUsernameSameUser(all, byName.value, u);
  }

  /** After `create_task`, the owner's task list is the old one followed by the new task, and no
      other user's list changes. */
  lemma {:induction false} TasksByUserAfterCreate(tasks: seq<Task>, t: Task, ownerId: int)
    ensures GetTasksByUser(tasks + [t], ownerId)
         == GetTasksByUser(tasks, ownerId) + (if t.ownerId == Some(ownerId) then [t] else [])
  {
    if tasks == [] {
      assert [] + [t] == [t];
    } else {
      assert (tasks + [t])[1..] == tasks[1..] + [t];
      TasksByUserAfterCreate(tasks[1..], t, ownerId);
    }
  }

  /** A task owned by someone else is never returned to the caller, even when its id is known. */
  lemma ForeignTaskUnreachable(tasks: seq<Task>, t: Task, callerId: int)
    requires t in tasks && t.ownerId != Some(callerId)
    ensures GetTaskById(tasks, callerId, t.id) != Some(t)
    ensures OwnedTaskIndex(tasks, callerId, t.id).Some? ==>
      tasks[OwnedTaskIndex(tasks, callerId, t.id).value] != t
  {
  }

  /** With unique task ids, a caller who does not own task `t` gets nothing for its id. */
  lemma ForeignTaskIdNotFound(tasks: seq<Task>, t: Task, callerId: int)
    requires UniqueTaskIds(tasks)
    requires t in tasks && t.ownerId != Some(callerId)
    ensures GetTaskById(tasks, callerId, t.id) == None
    ensures OwnedTaskIndex(tasks, callerId, t.id) == None
  {
  }

  /** `create_task` for an existing owner keeps the declared foreign key. */
  lemma CreateTaskKeepsOwnersExist(users: seq<User>, tasks: seq<Task>, t: Task)
    requires OwnersExist(users, tasks)
    requires t.ownerId.Some? ==> GetUserById(users, t.ownerId.value).Some?
    ensures OwnersExist(users, tasks + [t])
  {
  }

  /** `delete_user` keeps the declared foreign key: the rows that pointed at the deleted user now hold
      NULL, and every other owner is still stored. */
  lemma DeleteUserKeepsOwnersExist(users: seq<User>, tasks: seq<Task>, i: int)
    requires UniqueUserIds(users) && OwnersExist(users, tasks)
    requires 0 <= i < |users|
    ensures OwnersExist(users[..i] + users[i+1..], DetachTasks(tasks, users[i].id))
  {
  }

  /** After `delete_user`, nobody owns the old tasks: a user who is later given the same id (SQLite
      may reuse it) sees none of them. */
  lemma {:induction false} DeletedIdOwnsNothing(tasks: seq<Task>, userId: int)
    ensures GetTasksByUser(DetachTasks(tasks, userId), userId) == []
  {
    if tasks != [] {
      var detached := DetachTasks(tasks, userId);
      assert detached[1..] == DetachTasks(tasks[1..], userId);
      assert detached[0].ownerId != Some(userId);
      DeletedIdOwnsNothing(tasks[1..], userId);
    }
  }
}
