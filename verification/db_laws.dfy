/** Laws that relate several data-service operations: seeding, referential
    facts the cascades keep, round trips, and the consequences of the
    case-sensitive signup check next to the case-insensitive login.
 */
module DbLaws {
  import opened Types
  import opened Seqs
  import opened Text
  import Constants
  import opened DbService

  /** Every task's profile reference names a stored profile. */
  predicate TasksReferToProfiles(s: Store) {
    forall t :: t in s.tasks ==> exists e :: e in s.elderly && e.id == t.elderlyId
  }

  /** Every task is unassigned or assigned to a stored user. */
  predicate AssigneesExist(s: Store) {
    forall t :: t in s.tasks && t.assignedToId.Some? ==>
      exists u :: u in s.users && u.id == t.assignedToId.value
  }

  /** No two users share an id. */
  predicate UniqueUserIds(s: Store) {
    forall i, j :: 0 <= i < j < |s.users| ==> s.users[i].id != s.users[j].id
  }

  /** The store a first run produces: the seed lists and the given session. */
  function SeedStore(atHour: nat -> string, session: Option<string>): Store {
    Store(Constants.MockUsers, Constants.MockElderly, Constants.InitialTasks(atHour), session)
  }

  // ---------------------------------------------------------------------
  // Seeding
  // ---------------------------------------------------------------------

  /** With no collection stored, seeding installs exactly the seed lists. */
  lemma FirstRunLoadsSeed(atHour: nat -> string, session: Option<string>)
    ensures Load(InitStorage(Storage(None, None, None, session), atHour)) == SeedStore(atHour, session)
  {
  }

  /** The seed store is referentially sound and its user ids are unique. */
  lemma SeedStoreIsSound(atHour: nat -> string, session: Option<string>)
    ensures TasksReferToProfiles(SeedStore(atHour, session))
    ensures AssigneesExist(SeedStore(atHour, session))
    ensures UniqueUserIds(SeedStore(atHour, session))
  {
    Constants.SeedTasksReferToSeed(atHour);
    Constants.SeedUsersDistinct();
  }

  /** Resetting the admin password a second time changes nothing. */
  lemma ResetAdminPasswordIdempotent(users: seq<User>)
    ensures ResetAdminPassword(ResetAdminPassword(users)) == ResetAdminPassword(users)
  {
    var r := ResetAdminPassword(users);
    match FindIndex(users, HasId(AdminId))
    case None =>
    case Some(i) =>
      assert r[i].id == users[i].id;
      assert forall j :: 0 <= j < |r| ==> r[j].id == users[j].id;
      assert IsFirst(r, i, HasId(AdminId));
  }

  /** Seeding is idempotent: a second run (a reload) changes nothing. */
  lemma InitStorageIdempotent(st: Storage, atHour: nat -> string)
    ensures InitStorage(InitStorage(st, atHour), atHour) == InitStorage(st, atHour)
  {
    var once := InitStorage(st, atHour);
    if st.users.None? {
      var mock := Constants.MockUsers;
      assert IsFirst(mock, 0, HasId(AdminId));
      assert mock[0 := mock[0].(password := Constants.AdminUser.password)] == mock;
    } else {
      ResetAdminPasswordIdempotent(st.users.value);
    }
  }

  /** A stored list is never replaced by the seed, even when it is empty:
      after a user list has been emptied, a reload still sees it empty. */
  lemma SeedingKeepsEmptyLists(session: Option<string>, atHour: nat -> string)
    ensures Load(InitStorage(Storage(Some([]), Some([]), Some([]), session), atHour))
         == Store([], [], [], session)
  {
  }

  /** Writing a store and reloading the page gives the store back, except
      that the first stored `admin_user` has the seed password again. */
  lemma ReloadAfterSave(s: Store, atHour: nat -> string)
    ensures var r := Load(InitStorage(Save(s), atHour));
      && r.elderly == s.elderly && r.tasks == s.tasks && r.session == s.session
      && (NoneMatch(s.users, HasId(AdminId)) ==> r == s)
      && forall i | IsFirst(s.users, i, HasId(AdminId)) ::
           r.users == s.users[i := s.users[i].(password := Constants.AdminUser.password)]
  {
  }

  // ---------------------------------------------------------------------
  // Authentication
  // ---------------------------------------------------------------------

  /** The seeded administrator can log in with the login name `admin`. */
  lemma AdminLogsInOnSeed(atHour: nat -> string, session: Option<string>)
    ensures Login(SeedStore(atHour, session), "admin", Some("admin052905"))
         == Step(Ok(Constants.AdminUser), SeedStore(atHour, Some("admin_user")))
  {
    var s := SeedStore(atHour, session);
    assert LoginMatches(s.users[0], "admin");
    assert IsFirst(s.users, 0, MatchesLogin("admin"));
  }

  /** A seeded member can log in with the part of the email before '@',
      typed in any letter case. */
  lemma MemberLogsInByLocalPart(atHour: nat -> string)
    ensures Login(SeedStore(atHour, None), "Ana", Some("123")).response == Ok(Constants.MockUsers[1])
  {
    var s := SeedStore(atHour, None);
    TypedLoginsLower();
    var u0 := s.users[0];
    var u1 := s.users[1];
    assert u0.email == "admin" && u1.email == "ana@example.com";
    assert !LoginMatches(u0, "Ana") by {
      AdminEmailFacts();
      assert Lower(u0.email) == "admin";
      assert LocalPart(u0.email) == "admin";
    }
    assert LoginMatches(u1, "Ana") by {
      AnaEmailLocalPart();
      assert LocalPart(u1.email) == "ana";
    }
    assert IsFirst(s.users, 1, MatchesLogin("Ana"));
  }

  /** The login lookup lower-cases its input, so the letter case of what
      is typed does not matter. */
  lemma LoginIgnoresInputCase(s: Store, emailOrLogin: string, password: Option<string>)
    ensures Login(s, Lower(emailOrLogin), password) == Login(s, emailOrLogin, password)
  {
    LowerIdempotent(emailOrLogin);
    var typed := MatchesLogin(emailOrLogin);
    var lowered := MatchesLogin(Lower(emailOrLogin));
    assert forall u :: lowered(u) == typed(u);
    match FindIndex(s.users, typed)
    case None =>
      assert NoneMatch(s.users, lowered);
    case Some(i) =>
      assert IsFirst(s.users, i, lowered);
  }

  /** A wrong password leaves the session slot as it was. */
  lemma WrongPasswordKeepsSession(s: Store, emailOrLogin: string, password: Option<string>, i: nat)
    requires IsFirst(s.users, i, MatchesLogin(emailOrLogin))
    requires password != Some(s.users[i].password)
    ensures Login(s, emailOrLogin, password).store.session == s.session
    ensures Login(s, emailOrLogin, password).response == Err(LoginWrongPassword)
  {
  }

  /** After a successful login the current user has the logged-in user's id,
      and is that very user when user ids are unique. A user whose id is the
      empty string logs in but is not seen as current (`!id`). */
  lemma LoginThenCurrentUser(s: Store, emailOrLogin: string, password: Option<string>)
    requires Login(s, emailOrLogin, password).response.Ok?
    ensures var u := Login(s, emailOrLogin, password).response.data;
      var current := GetCurrentUser(Login(s, emailOrLogin, password).store);
      && (u.id == "" ==> current.None?)
      && (u.id != "" ==> current.Some? && current.value.id == u.id)
      && (u.id != "" && UniqueUserIds(s) ==> current == Some(u))
  {
    var r := Login(s, emailOrLogin, password);
    var u := r.response.data;
    if u.id != "" {
      var k :| 0 <= k < |s.users| && s.users[k] == u;
      assert HasId(u.id)(s.users[k]);
      var current := GetCurrentUser(r.store);
      var j :| IsFirst(s.users, j, HasId(u.id)) && s.users[j] == current.value;
      if UniqueUserIds(s) {
        assert j == k;
      }
    }
  }

  /** After a successful signup the current user is the new member, provided
      no earlier user already had the generated id. */
  lemma SignupThenCurrentUser(s: Store, name: string, email: string, password: string, now: nat, encodedName: string)
    requires forall u :: u in s.users ==> u.email != email
    requires forall u :: u in s.users ==> u.id != "u" + Decimal(now)
    ensures var r := Signup(s, name, email, password, now, encodedName);
      GetCurrentUser(r.store) == Some(r.response.data)
  {
    var r := Signup(s, name, email, password, now, encodedName);
    var us := r.store.users;
    assert IsFirst(us, |s.users|, HasId("u" + Decimal(now)));
  }

  /** Signups at distinct instants generate distinct user ids. */
  lemma SignupIdsDistinct(name: string, email: string, password: string, encodedName: string, m: nat, n: nat)
    requires m != n
    ensures NewMember(name, email, password, m, encodedName).id != NewMember(name, email, password, n, encodedName).id
  {
    if "u" + Decimal(m) == "u" + Decimal(n) {
      assert Decimal(m) == ("u" + Decimal(m))[1..];
      assert Decimal(n) == ("u" + Decimal(n))[1..];
      DecimalInjective(m, n);
    }
  }

  /** The signup check is case-sensitive but the login lookup is not: when a
      stored email matches the new one for login purposes, a member who signs
      up with it can never be the user that logging in with that email finds. */
  lemma SignupShadowedByEarlierLogin(s: Store, name: string, email: string, password: string,
                                     now: nat, encodedName: string, i: nat, attempt: Option<string>)
    requires forall u :: u in s.users ==> u.email != email
    requires IsFirst(s.users, i, MatchesLogin(email))
    ensures var r := Signup(s, name, email, password, now, encodedName);
      var l := Login(r.store, email, attempt);
      && r.response.Ok?
      && (l.response.Ok? ==> l.response.data == s.users[i])
  {
    var r := Signup(s, name, email, password, now, encodedName);
    var us := r.store.users;
    assert us[..|s.users|] == s.users;
    assert IsFirst(us, i, MatchesLogin(email));
  }

  /** A concrete instance on the seed: `Admin` is accepted by signup as a
      new email, yet logging in with it finds the seeded administrator. */
  lemma SeedSignupCaseVariant(atHour: nat -> string, now: nat, encodedName: string)
    ensures var s := SeedStore(atHour, None);
      var r := Signup(s, "Ana", "Admin", "secret", now, encodedName);
      && r.response.Ok?
      && Login(r.store, "Admin", Some("secret")) == Step(Err(LoginWrongPassword), r.store)
  {
    var s := SeedStore(atHour, None);
    TypedLoginsLower();
    assert LoginMatches(s.users[0], "Admin") by { AdminEmailFacts(); }
    assert IsFirst(s.users, 0, MatchesLogin("Admin"));
    SignupShadowedByEarlierLogin(s, "Ana", "Admin", "secret", now, encodedName, 0, Some("secret"));
  }

  /** Logging out leaves no current user. */
  lemma LogoutClearsCurrentUser(s: Store)
    ensures GetCurrentUser(Logout(s)).None?
  {
  }

  // ---------------------------------------------------------------------
  // Roles
  // ---------------------------------------------------------------------

  /** Changing a role keeps every id, so unique ids, assignees and profile
      references all stay as sound as they were. */
  lemma UpdateUserRolePreservesInvariants(s: Store, userId: string, newRole: Role)
    requires UniqueUserIds(s) && AssigneesExist(s) && TasksReferToProfiles(s)
    ensures var r := UpdateUserRole(s, userId, newRole).store;
      UniqueUserIds(r) && AssigneesExist(r) && TasksReferToProfiles(r)
  {
    var r := UpdateUserRole(s, userId, newRole).store;
    assert r.tasks == s.tasks && r.elderly == s.elderly && |r.users| == |s.users|;
    assert forall k :: 0 <= k < |s.users| ==> r.users[k].id == s.users[k].id;
    forall t | t in r.tasks && t.assignedToId.Some?
      ensures exists u :: u in r.users && u.id == t.assignedToId.value
    {
      var u :| u in s.users && u.id == t.assignedToId.value;
      var k :| 0 <= k < |s.users| && s.users[k] == u;
      assert r.users[k] in r.users;
    }
  }

  /** Changing the signed-in user's role is seen at once by
      `getCurrentUser`: the current user is the updated user, with the new
      role. */
  lemma UpdateRoleOfCurrentUser(s: Store, newRole: Role)
    requires GetCurrentUser(s).Some?
    ensures var r := UpdateUserRole(s, s.session.value, newRole);
      && r.response.Ok?
      && r.response.data.role == newRole
      && GetCurrentUser(r.store) == Some(r.response.data)
  {
    var id := s.session.value;
    var i :| IsFirst(s.users, i, HasId(id)) && s.users[i] == GetCurrentUser(s).value;
    var r := UpdateUserRole(s, id, newRole);
    assert IsFirst(r.store.users, i, HasId(id));
  }

  // ---------------------------------------------------------------------
  // The asymmetric cascades
  // ---------------------------------------------------------------------

  /** Deleting a user keeps every task: the count is invariant and each
      task keeps its id, profile and status. */
  lemma DeleteUserKeepsTasks(s: Store, userId: string)
    ensures var r := DeleteUser(s, userId).store;
      && |r.tasks| == |s.tasks|
      && (forall i :: 0 <= i < |s.tasks| ==>
            && r.tasks[i].id == s.tasks[i].id
            && r.tasks[i].elderlyId == s.tasks[i].elderlyId
            && r.tasks[i].status == s.tasks[i].status)
      && forall i :: 0 <= i < |s.tasks| ==> r.tasks[i].assignedToId != Some(userId)
  {
  }

  /** Deleting a user keeps every assignee pointing at a stored user, and
      keeps the profile references. */
  lemma DeleteUserPreservesReferences(s: Store, userId: string)
    requires AssigneesExist(s) && TasksReferToProfiles(s)
    ensures AssigneesExist(DeleteUser(s, userId).store)
    ensures TasksReferToProfiles(DeleteUser(s, userId).store)
  {
    var r := DeleteUser(s, userId).store;
    forall t | t in r.tasks && t.assignedToId.Some?
      ensures exists u :: u in r.users && u.id == t.assignedToId.value
    {
      var i :| 0 <= i < |r.tasks| && r.tasks[i] == t;
      var old_t := s.tasks[i];
      assert old_t in s.tasks;
      var u :| u in s.users && u.id == old_t.assignedToId.value;
      assert u in r.users;
    }
    forall t | t in r.tasks
      ensures exists e :: e in r.elderly && e.id == t.elderlyId
    {
      var i :| 0 <= i < |r.tasks| && r.tasks[i] == t;
      assert s.tasks[i] in s.tasks;
    }
  }

  /** Deleting the logged-in user leaves no current user, though the session
      slot still holds the id. */
  lemma DeleteSessionUser(s: Store, userId: string)
    requires s.session == Some(userId)
    ensures DeleteUser(s, userId).store.session == Some(userId)
    ensures GetCurrentUser(DeleteUser(s, userId).store).None?
  {
    var r := DeleteUser(s, userId).store;
    assert forall j :: 0 <= j < |r.users| ==> r.users[j] in r.users;
  }

  /** Deleting a profile keeps the store referentially sound: the tasks
      left all name a profile that is still stored, because the tasks of
      the deleted profile go with it, and no user is removed. */
  lemma DeleteProfilePreservesReferences(s: Store, id: string)
    requires TasksReferToProfiles(s) && AssigneesExist(s)
    ensures TasksReferToProfiles(DeleteElderlyProfile(s, id).store)
    ensures AssigneesExist(DeleteElderlyProfile(s, id).store)
  {
    var r := DeleteElderlyProfile(s, id).store;
    forall t | t in r.tasks
      ensures exists e :: e in r.elderly && e.id == t.elderlyId
    {
      var e :| e in s.elderly && e.id == t.elderlyId;
      assert e in r.elderly;
    }
  }

  /** On the seed, deleting profile `e1` leaves exactly the tasks of `e2`,
      in their order, and no user changes. */
  lemma SeedDeleteProfile(atHour: nat -> string)
    ensures var s := SeedStore(atHour, None);
      var r := DeleteElderlyProfile(s, "e1").store;
      && r.tasks == [s.tasks[1], s.tasks[2]]
      && r.elderly == [s.elderly[1]]
      && r.users == s.users
  {
    var s := SeedStore(atHour, None);
    var keep := (t: Task) => t.elderlyId != "e1";
    var ts := s.tasks;
    assert Filter(ts[4..], keep) == [];
    assert Filter(ts[3..], keep) == [];
    assert Filter(ts[2..], keep) == [ts[2]];
    assert Filter(ts[1..], keep) == [ts[1], ts[2]];
    var es := s.elderly;
    assert Filter(es[1..], (e: ElderlyProfile) => e.id != "e1") == [es[1]];
  }

  // ---------------------------------------------------------------------
  // Round trips
  // ---------------------------------------------------------------------

  /** Completing a task and then setting it back to PENDING leaves it PENDING
      with no completion time, everything else as it was. */
  lemma CompleteThenReopen(s: Store, taskId: string, i: nat, t1: string, t2: string)
    requires IsFirst(s.tasks, i, TaskHasId(taskId))
    ensures var done := UpdateTaskStatus(s, taskId, Completed, t1);
      var back := UpdateTaskStatus(done.store, taskId, Pending, t2);
      && done.response == Ok(s.tasks[i].(status := Completed, completedAt := Some(t1)))
      && back.response == Ok(s.tasks[i].(status := Pending, completedAt := None))
      && back.store == s.(tasks := s.tasks[i := s.tasks[i].(status := Pending, completedAt := None)])
  {
    var done := UpdateTaskStatus(s, taskId, Completed, t1);
    assert IsFirst(done.store.tasks, i, TaskHasId(taskId));
  }

  /** Creating a task with a fresh id and then deleting that id restores the
      store. */
  lemma CreateThenDeleteTask(s: Store, task: Task)
    requires forall t :: t in s.tasks ==> t.id != task.id
    ensures DeleteTask(CreateTask(s, task).store, task.id).store == s
  {
    var keep := (t: Task) => t.id != task.id;
    FilterAppend(s.tasks, [task], keep);
    FilterKeepsAll(s.tasks, keep);
  }

  /** Deleting a task id removes every task with that id, duplicates
      included: creating a task whose id is already taken and then deleting
      that id loses the earlier task too. */
  lemma CreateDuplicateThenDelete(s: Store, task: Task)
    requires exists t :: t in s.tasks && t.id == task.id
    ensures |DeleteTask(CreateTask(s, task).store, task.id).store.tasks| < |s.tasks|
  {
    var keep := (t: Task) => t.id != task.id;
    FilterAppend(s.tasks, [task], keep);
    FilterShrinks(s.tasks, keep);
  }

  /** Creating a profile with a fresh id that no task refers to, and then
      deleting it, restores the store. */
  lemma CreateThenDeleteProfile(s: Store, profile: ElderlyProfile)
    requires forall e :: e in s.elderly ==> e.id != profile.id
    requires forall t :: t in s.tasks ==> t.elderlyId != profile.id
    ensures DeleteElderlyProfile(CreateElderlyProfile(s, profile).store, profile.id).store == s
  {
    var keepProfile := (e: ElderlyProfile) => e.id != profile.id;
    FilterAppend(s.elderly, [profile], keepProfile);
    FilterKeepsAll(s.elderly, keepProfile);
    FilterKeepsAll(s.tasks, (t: Task) => t.elderlyId != profile.id);
  }

  /** Assigning a task to nobody or to a stored user keeps every assignee
      pointing at a stored user. No check rejects other ids. */
  lemma AssignTaskPreservesAssignees(s: Store, taskId: string, userId: Option<string>)
    requires AssigneesExist(s)
    requires userId.Some? ==> exists u :: u in s.users && u.id == userId.value
    ensures AssigneesExist(AssignTask(s, taskId, userId).store)
  {
    var r := AssignTask(s, taskId, userId).store;
    forall t | t in r.tasks && t.assignedToId.Some?
      ensures exists u :: u in r.users && u.id == t.assignedToId.value
    {
      var k :| 0 <= k < |r.tasks| && r.tasks[k] == t;
      if t != s.tasks[k] {
        assert t.assignedToId == userId;
      } else {
        assert s.tasks[k] in s.tasks;
      }
    }
  }
}
