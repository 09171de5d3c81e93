/** The local-storage data service: four persisted slots (users, elderly
    profiles, tasks, session id), first-run seeding, and the `db` operations.

    Every operation is a pure function from the current store (and its
    arguments) to a response envelope and the next store. The browser's
    storage, `Date.now()` and `new Date().toISOString()` are inputs: the
    signup timestamp is the parameter `now`, the completion time is `nowIso`,
    and `encodeURIComponent(name)` is the opaque `encodedName`.
 */
module DbService {
  import opened Types
  import opened Seqs
  import opened Text
  import Constants

  const LoginUserNotFound := "Usuário não encontrado."
  const LoginWrongPassword := "Senha incorreta."
  const SignupEmailTaken := "Email já cadastrado."
  const UserNotFound := "User not found"
  const TaskNotFound := "Task not found"

  const AdminId := "admin_user"

  const SignupAvatarPrefix := "https://api.dicebear.com/7.x/avataaars/svg?seed="
  const SignupAvatarSuffix := "&backgroundColor=b6e3f4"
  const SignupColor := "bg-indigo-100 text-indigo-800"

  /** The browser's storage slots: a collection slot is absent until its
      first write; a present slot holds a parsed list (possibly empty). */
  datatype Storage = Storage(
    users: Option<seq<User>>,
    elderly: Option<seq<ElderlyProfile>>,
    tasks: Option<seq<Task>>,
    session: Option<string>)

  /** The state the operations read and write through `data` and `save`. */
  datatype Store = Store(
    users: seq<User>,
    elderly: seq<ElderlyProfile>,
    tasks: seq<Task>,
    session: Option<string>)

  /** What an operation returns, together with the store it leaves behind. */
  datatype Step<+T> = Step(response: Response<T>, store: Store)

  function HasId(id: string): User -> bool {
    (u: User) => u.id == id
  }

  function HasEmail(email: string): User -> bool {
    (u: User) => u.email == email
  }

  function TaskHasId(id: string): Task -> bool {
    (t: Task) => t.id == id
  }

  // ---------------------------------------------------------------------
  // Reading and writing the slots, and first-run seeding
  // ---------------------------------------------------------------------

  /** `data.*`: an absent slot reads as the empty list. */
  function Load(st: Storage): (s: Store)
    ensures st.users.Some? ==> s.users == st.users.value
    ensures st.users.None? ==> s.users == []
    ensures st.elderly.Some? ==> s.elderly == st.elderly.value
    ensures st.elderly.None? ==> s.elderly == []
    ensures st.tasks.Some? ==> s.tasks == st.tasks.value
    ensures st.tasks.None? ==> s.tasks == []
    ensures s.session == st.session
  {
    Store(if st.users.Some? then st.users.value else [],
          if st.elderly.Some? then st.elderly.value else [],
          if st.tasks.Some? then st.tasks.value else [],
          st.session)
  }

  /** `save.*`: every collection slot is written, and reading it back gives
      the store that was saved. */
  function Save(s: Store): (st: Storage)
    ensures st.users.Some? && st.elderly.Some? && st.tasks.Some?
    ensures Load(st) == s
  {
    Storage(Some(s.users), Some(s.elderly), Some(s.tasks), s.session)
  }

  /** `MOCK_USERS.find(u => u.id === 'admin_user')`. */
  function MockAdmin(): (r: Option<User>)
    ensures r == Some(Constants.AdminUser)
  {
    Find(Constants.MockUsers, HasId(AdminId))
  }

  /** The development helper in seeding: the first stored `admin_user`
      gets the seed password back; nothing else changes. */
  function ResetAdminPassword(users: seq<User>): (r: seq<User>)
    ensures |r| == |users|
    ensures NoneMatch(users, HasId(AdminId)) ==> r == users
    ensures forall i | IsFirst(users, i, HasId(AdminId)) ::
      r == users[i := users[i].(password := Constants.AdminUser.password)]
  {
    var index := FindIndex(users, HasId(AdminId));
    var mockAdmin := MockAdmin();
    if index.Some? && mockAdmin.Some? && users[index.value].password != mockAdmin.value.password then
      users[index.value := users[index.value].(password := mockAdmin.value.password)]
    else
      users
  }

  /** `initStorage`: every absent collection gets its seed list; a present
      collection, even an empty one, is kept, except that the first stored
      `admin_user` gets the seed password back. The session slot is not
      touched. */
  function InitStorage(st: Storage, atHour: nat -> string): (r: Storage)
    ensures r.users.Some? && r.elderly.Some? && r.tasks.Some?
    ensures r.session == st.session
    ensures st.users.None? ==> r.users == Some(Constants.MockUsers)
    ensures st.users.Some? && NoneMatch(st.users.value, HasId(AdminId)) ==> r.users == st.users
    ensures st.users.Some? ==> forall i | IsFirst(st.users.value, i, HasId(AdminId)) ::
      r.users == Some(st.users.value[i := st.users.value[i].(password := Constants.AdminUser.password)])
    ensures st.elderly.None? ==> r.elderly == Some(Constants.MockElderly)
    ensures st.elderly.Some? ==> r.elderly == st.elderly
    ensures st.tasks.None? ==> r.tasks == Some(Constants.InitialTasks(atHour))
    ensures st.tasks.Some? ==> r.tasks == st.tasks
  {
    var users := match st.users
      case None => Constants.MockUsers
      case Some(us) => ResetAdminPassword(us);
    var elderly := if st.elderly.None? then Constants.MockElderly else st.elderly.value;
    var tasks := if st.tasks.None? then Constants.InitialTasks(atHour) else st.tasks.value;
    Storage(Some(users), Some(elderly), Some(tasks), st.session)
  }

  // ---------------------------------------------------------------------
  // Authentication
  // ---------------------------------------------------------------------

  /** The login lookup: the lower-cased email equals the lower-cased input,
      or the email's part before '@' (not lower-cased) equals the lower-cased
      input. */
  predicate LoginMatches(u: User, emailOrLogin: string) {
    || Lower(u.email) == Lower(emailOrLogin)
    || LocalPart(u.email) == Lower(emailOrLogin)
  }

  function MatchesLogin(emailOrLogin: string): User -> bool {
    (u: User) => LoginMatches(u, emailOrLogin)
  }

  /** `db.login`: the first matching user, if its password equals the given
      one, becomes the session user. Any failure leaves the store as it was. */
  function Login(s: Store, emailOrLogin: string, password: Option<string>): (r: Step<User>)
    ensures NoneMatch(s.users, MatchesLogin(emailOrLogin)) ==>
      r == Step(Err(LoginUserNotFound), s)
    ensures forall i | IsFirst(s.users, i, MatchesLogin(emailOrLogin)) ::
      if password == Some(s.users[i].password)
      then r == Step(Ok(s.users[i]), s.(session := Some(s.users[i].id)))
      else r == Step(Err(LoginWrongPassword), s)
    ensures r.response.Err? ==> r.store == s
    ensures r.response.Ok? ==>
      && r.response.data in s.users
      && r.store == s.(session := Some(r.response.data.id))
  {
    match Find(s.users, MatchesLogin(emailOrLogin))
    case None => Step(Err(LoginUserNotFound), s)
    case Some(user) =>
      if Some(user.password) != password then Step(Err(LoginWrongPassword), s)
      else Step(Ok(user), s.(session := Some(user.id)))
  }

  /** The user `signup` creates: id `u<now>`, role MEMBER. */
  function NewMember(name: string, email: string, password: string, now: nat, encodedName: string): User {
    User("u" + Decimal(now), name, email, password,
         SignupAvatarPrefix + encodedName + SignupAvatarSuffix, Member, SignupColor)
  }

  /** `db.signup`: refused when some stored email is exactly (case-sensitively)
      the given one; otherwise the new member is appended last and becomes
      the session user. */
  function Signup(s: Store, name: string, email: string, password: string, now: nat, encodedName: string)
    : (r: Step<User>)
    ensures (exists u :: u in s.users && u.email == email) ==>
      r == Step(Err(SignupEmailTaken), s)
    ensures (forall u :: u in s.users ==> u.email != email) ==>
      && r.response.Ok?
      && var nu := r.response.data;
      && nu.id == "u" + Decimal(now)
      && nu.name == name && nu.email == email && nu.password == password
      && nu.role == Member
      && nu.avatarUrl == SignupAvatarPrefix + encodedName + SignupAvatarSuffix
      && nu.color == SignupColor
      && r.store == s.(users := s.users + [nu], session := Some(nu.id))
  {
    if Find(s.users, HasEmail(email)).Some? then
      Step(Err(SignupEmailTaken), s)
    else
      var newUser := NewMember(name, email, password, now, encodedName);
      Step(Ok(newUser), s.(users := s.users + [newUser], session := Some(newUser.id)))
  }

  /** `db.getCurrentUser`: no user when the session slot is absent or empty
      (`!id`); otherwise the first user with the session id, if any. */
  function GetCurrentUser(s: Store): (r: Option<User>)
    ensures s.session.None? || s.session == Some("") ==> r.None?
    ensures s.session.Some? && s.session.value != "" ==>
      (r.None? <==> NoneMatch(s.users, HasId(s.session.value)))
    ensures r.Some? ==>
      && s.session.Some?
      && exists i :: IsFirst(s.users, i, HasId(s.session.value)) && s.users[i] == r.value
  {
    match s.session
    case None => None
    case Some(id) => if id == "" then None else Find(s.users, HasId(id))
  }

  /** `db.logout`: clears the session slot and nothing else. */
  function Logout(s: Store): (r: Store)
    ensures r.session.None?
    ensures r.users == s.users && r.elderly == s.elderly && r.tasks == s.tasks
  {
    s.(session := None)
  }

  // ---------------------------------------------------------------------
  // User management
  // ---------------------------------------------------------------------

  /** `db.updateUserRole`: only the first user with the id gets the new role. */
  function UpdateUserRole(s: Store, userId: string, newRole: Role): (r: Step<User>)
    ensures NoneMatch(s.users, HasId(userId)) ==> r == Step(Err(UserNotFound), s)
    ensures forall i | IsFirst(s.users, i, HasId(userId)) ::
      var updated := s.users[i].(role := newRole);
      r == Step(Ok(updated), s.(users := s.users[i := updated]))
  {
    match FindIndex(s.users, HasId(userId))
    case None => Step(Err(UserNotFound), s)
    case Some(index) =>
      var updatedUser := s.users[index].(role := newRole);
      Step(Ok(updatedUser), s.(users := s.users[index := updatedUser]))
  }

  /** The task list after the user `userId` is removed: tasks assigned to
      that user become unassigned, all others stay as they were. */
  function Unassign(tasks: seq<Task>, userId: string): (r: seq<Task>)
    ensures |r| == |tasks|
    ensures forall i :: 0 <= i < |tasks| ==>
      r[i] == if tasks[i].assignedToId == Some(userId)
              then tasks[i].(assignedToId := None)
              else tasks[i]
  {
    if |tasks| == 0 then []
    else
      var t := tasks[0];
      [if t.assignedToId == Some(userId) then t.(assignedToId := None) else t]
        + Unassign(tasks[1..], userId)
  }

  /** `db.deleteUser`: always succeeds; removes every user with the id and
      unassigns (never deletes) their tasks. The session is left alone. */
  function DeleteUser(s: Store, userId: string): (r: Step<Unit>)
    ensures r.response == Ok(Unit)
    ensures forall u :: u in r.store.users <==> u in s.users && u.id != userId
    ensures r.store.users == Filter(s.users, (u: User) => u.id != userId)
    ensures r.store.tasks == Unassign(s.tasks, userId)
    ensures r.store.elderly == s.elderly && r.store.session == s.session
  {
    var users := Filter(s.users, (u: User) => u.id != userId);
    var tasks := Unassign(s.tasks, userId);
    Step(Ok(Unit), s.(users := users, tasks := tasks))
  }

  // ---------------------------------------------------------------------
  // Tasks
  // ---------------------------------------------------------------------

  /** `db.assignTask`: the first task with the id gets the new assignee,
      whether or not such a user exists. */
  function AssignTask(s: Store, taskId: string, userId: Option<string>): (r: Step<Task>)
    ensures NoneMatch(s.tasks, TaskHasId(taskId)) ==> r == Step(Err(TaskNotFound), s)
    ensures forall i | IsFirst(s.tasks, i, TaskHasId(taskId)) ::
      var updated := s.tasks[i].(assignedToId := userId);
      r == Step(Ok(updated), s.(tasks := s.tasks[i := updated]))
  {
    match FindIndex(s.tasks, TaskHasId(taskId))
    case None => Step(Err(TaskNotFound), s)
    case Some(index) =>
      var updated := s.tasks[index].(assignedToId := userId);
      Step(Ok(updated), s.(tasks := s.tasks[index := updated]))
  }

  /** The completion rule: a task carries a completion time exactly when its
      new status is COMPLETED, and the time is the current one. */
  function WithStatus(t: Task, status: TaskStatus, nowIso: string): (r: Task)
    ensures r.status == status
    ensures r.completedAt.Some? <==> status == Completed
    ensures r.completedAt.Some? ==> r.completedAt.value == nowIso
    ensures r.(status := t.status, completedAt := t.completedAt) == t
  {
    t.(status := status, completedAt := if status == Completed then Some(nowIso) else None)
  }

  /** `db.updateTaskStatus`: the first task with the id takes the new status
      under the completion rule; every other task is untouched. */
  function UpdateTaskStatus(s: Store, taskId: string, status: TaskStatus, nowIso: string): (r: Step<Task>)
    ensures NoneMatch(s.tasks, TaskHasId(taskId)) ==> r == Step(Err(TaskNotFound), s)
    ensures forall i | IsFirst(s.tasks, i, TaskHasId(taskId)) ::
      var updated := WithStatus(s.tasks[i], status, nowIso);
      r == Step(Ok(updated), s.(tasks := s.tasks[i := updated]))
  {
    match FindIndex(s.tasks, TaskHasId(taskId))
    case None => Step(Err(TaskNotFound), s)
    case Some(index) =>
      var updated := WithStatus(s.tasks[index], status, nowIso);
      Step(Ok(updated), s.(tasks := s.tasks[index := updated]))
  }

  /** `db.createTask`: appends the task as given, with no id check. */
  function CreateTask(s: Store, task: Task): (r: Step<Task>)
    ensures r.response == Ok(task)
    ensures |r.store.tasks| == |s.tasks| + 1
    ensures r.store.tasks[..|s.tasks|] == s.tasks && r.store.tasks[|s.tasks|] == task
    ensures r.store.users == s.users && r.store.elderly == s.elderly && r.store.session == s.session
  {
    Step(Ok(task), s.(tasks := s.tasks + [task]))
  }

  /** `db.deleteTask`: always succeeds; keeps, in order, the tasks with a
      different id. */
  function DeleteTask(s: Store, taskId: string): (r: Step<Unit>)
    ensures r.response == Ok(Unit)
    ensures forall t :: t in r.store.tasks <==> t in s.tasks && t.id != taskId
    ensures r.store.tasks == Filter(s.tasks, (t: Task) => t.id != taskId)
    ensures r.store.users == s.users && r.store.elderly == s.elderly && r.store.session == s.session
  {
    Step(Ok(Unit), s.(tasks := Filter(s.tasks, (t: Task) => t.id != taskId)))
  }

  // ---------------------------------------------------------------------
  // Elderly profiles
  // ---------------------------------------------------------------------

  /** `db.createElderlyProfile`: appends the profile as given, with no id check. */
  function CreateElderlyProfile(s: Store, profile: ElderlyProfile): (r: Step<ElderlyProfile>)
    ensures r.response == Ok(profile)
    ensures |r.store.elderly| == |s.elderly| + 1
    ensures r.store.elderly[..|s.elderly|] == s.elderly && r.store.elderly[|s.elderly|] == profile
    ensures r.store.users == s.users && r.store.tasks == s.tasks && r.store.session == s.session
  {
    Step(Ok(profile), s.(elderly := s.elderly + [profile]))
  }

  /** `db.deleteElderlyProfile`: always succeeds; removes every profile with
      the id and every task that refers to it (a hard delete, unlike the
      unassignment done by `deleteUser`). */
  function DeleteElderlyProfile(s: Store, id: string): (r: Step<Unit>)
    ensures r.response == Ok(Unit)
    ensures forall e :: e in r.store.elderly <==> e in s.elderly && e.id != id
    ensures forall t :: t in r.store.tasks <==> t in s.tasks && t.elderlyId != id
    ensures r.store.elderly == Filter(s.elderly, (e: ElderlyProfile) => e.id != id)
    ensures r.store.tasks == Filter(s.tasks, (t: Task) => t.elderlyId != id)
    ensures r.store.users == s.users && r.store.session == s.session
  {
    var elderly := Filter(s.elderly, (e: ElderlyProfile) => e.id != id);
    var tasks := Filter(s.tasks, (t: Task) => t.elderlyId != id);
    Step(Ok(Unit), s.(elderly := elderly, tasks := tasks))
  }
}
