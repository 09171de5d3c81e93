/** The decisions a task card makes for the signed-in user: the claim /
    abandon action, the status toggle and when its button is enabled, the
    border colour, and the assign button's visibility and label.
 */
module TaskCard {
  import opened Types
  import opened Seqs
  import opened DbService

  /** `isAssignedToMe`: the task's assignee is the current user's id. */
  predicate IsAssignedToMe(task: Task, me: User) {
    task.assignedToId == Some(me.id)
  }

  /** JavaScript truthiness of `task.assignedToId`: `null` and "" are falsy. */
  predicate HasAssignee(task: Task) {
    task.assignedToId.Some? && task.assignedToId.value != ""
  }

  // ---------------------------------------------------------------------
  // Claim / abandon
  // ---------------------------------------------------------------------

  /** `handleAssign`: abandon a task of mine, otherwise take it, even from
      another user. */
  function NewAssignee(task: Task, me: User): (r: Option<string>)
    ensures r.None? <==> IsAssignedToMe(task, me)
    ensures r.Some? ==> r.value == me.id && !IsAssignedToMe(task, me)
  {
    if IsAssignedToMe(task, me) then None else Some(me.id)
  }

  /** Pressing the claim / abandon button: through `db.assignTask`, the
      first stored task with the card's id is abandoned when the card shows
      it as mine and claimed otherwise; nothing else changes. A card whose
      task is no longer stored changes nothing. */
  function PressAssign(s: Store, task: Task, me: User): (r: Step<Task>)
    ensures NoneMatch(s.tasks, TaskHasId(task.id)) ==> r == Step(Err(TaskNotFound), s)
    ensures forall i | IsFirst(s.tasks, i, TaskHasId(task.id)) ::
      var updated := s.tasks[i].(assignedToId := if IsAssignedToMe(task, me) then None else Some(me.id));
      r == Step(Ok(updated), s.(tasks := s.tasks[i := updated]))
  {
    AssignTask(s, task.id, NewAssignee(task, me))
  }

  /** Claiming an unassigned task and then abandoning it restores the store. */
  lemma ClaimThenAbandon(s: Store, task: Task, me: User, i: nat)
    requires IsFirst(s.tasks, i, TaskHasId(task.id)) && s.tasks[i] == task
    requires task.assignedToId.None?
    ensures var claimed := PressAssign(s, task, me);
      && claimed.response == Ok(task.(assignedToId := Some(me.id)))
      && PressAssign(claimed.store, claimed.response.data, me).store == s
  {
    var claimed := PressAssign(s, task, me);
    assert IsFirst(claimed.store.tasks, i, TaskHasId(task.id));
    assert claimed.store.tasks[i := task] == s.tasks;
  }

  /** Pressing the button on a task someone else holds takes it over. */
  lemma ClaimTakesOver(s: Store, task: Task, me: User, i: nat, other: string)
    requires IsFirst(s.tasks, i, TaskHasId(task.id)) && s.tasks[i] == task
    requires task.assignedToId == Some(other) && other != me.id
    ensures PressAssign(s, task, me).store.tasks[i].assignedToId == Some(me.id)
  {
  }

  // ---------------------------------------------------------------------
  // Status toggle
  // ---------------------------------------------------------------------

  /** The status the toggle asks for: COMPLETED and PENDING swap. */
  function Flip(status: TaskStatus): (r: TaskStatus)
    ensures r != status
  {
    if status == Completed then Pending else Completed
  }

  /** Flipping twice gives back the original status. */
  lemma FlipInvolutive(status: TaskStatus)
    ensures Flip(Flip(status)) == status
  {
  }

  /** The guard of `handleStatusToggle`: it returns early exactly when the
      task is held by somebody else. */
  predicate MayToggle(task: Task, me: User) {
    !(!IsAssignedToMe(task, me) && HasAssignee(task))
  }

  /** Pressing the status button: nothing when the guard refuses, otherwise
      `db.updateTaskStatus` with the flipped status. Only the first stored
      task with the card's id changes, and only in its status and completion
      time; users, profiles and the session are never touched. */
  function PressStatus(s: Store, task: Task, me: User, nowIso: string): (r: Store)
    ensures !MayToggle(task, me) ==> r == s
    ensures NoneMatch(s.tasks, TaskHasId(task.id)) ==> r == s
    ensures r.users == s.users && r.elderly == s.elderly && r.session == s.session
    ensures |r.tasks| == |s.tasks|
    ensures forall i | IsFirst(s.tasks, i, TaskHasId(task.id)) && MayToggle(task, me) ::
      && r.tasks[i].status == Flip(task.status)
      && (r.tasks[i].completedAt.Some? <==> task.status == Pending)
      && (r.tasks[i].completedAt.Some? ==> r.tasks[i].completedAt.value == nowIso)
      && r.tasks[i].(status := s.tasks[i].status, completedAt := s.tasks[i].completedAt) == s.tasks[i]
      && (forall j :: 0 <= j < |s.tasks| && j != i ==> r.tasks[j] == s.tasks[j])
  {
    if !MayToggle(task, me) then s
    else UpdateTaskStatus(s, task.id, Flip(task.status), nowIso).store
  }

  /** Toggling a task twice from its card brings its status back; a task
      that started PENDING is left without a completion time. */
  lemma ToggleTwice(s: Store, task: Task, me: User, i: nat, t1: string, t2: string)
    requires IsFirst(s.tasks, i, TaskHasId(task.id)) && s.tasks[i] == task
    requires MayToggle(task, me)
    ensures var s1 := PressStatus(s, task, me, t1);
      var s2 := PressStatus(s1, s1.tasks[i], me, t2);
      && s2.tasks[i].status == task.status
      && (task.status == Pending ==> s2.tasks[i] == task.(completedAt := None))
      && (forall j :: 0 <= j < |s.tasks| && j != i ==> s2.tasks[j] == s.tasks[j])
  {
    var s1 := PressStatus(s, task, me, t1);
    var mid := s1.tasks[i];
    assert mid.id == task.id && mid.assignedToId == task.assignedToId;
    assert IsFirst(s1.tasks, i, TaskHasId(mid.id));
    assert MayToggle(mid, me);
  }

  /** `disabled` of the status button. */
  predicate StatusButtonDisabled(task: Task, me: User, isProcessing: bool) {
    || !HasAssignee(task)
    || (!IsAssignedToMe(task, me) && HasAssignee(task))
    || isProcessing
  }

  /** The status button is enabled exactly when the task is mine (and my id
      is not empty) and nothing is in flight. */
  lemma StatusButtonEnabledIff(task: Task, me: User, isProcessing: bool)
    ensures !StatusButtonDisabled(task, me, isProcessing)
        <==> IsAssignedToMe(task, me) && me.id != "" && !isProcessing
  {
  }

  /** An unassigned task passes the handler's guard: only the button's
      `disabled` keeps it from being toggled. An enabled button always
      passes the guard. */
  lemma UnassignedBlockedOnlyByButton(task: Task, me: User, isProcessing: bool)
    ensures !HasAssignee(task) ==> MayToggle(task, me) && StatusButtonDisabled(task, me, isProcessing)
    ensures !StatusButtonDisabled(task, me, isProcessing) ==> MayToggle(task, me)
  {
  }

  // ---------------------------------------------------------------------
  // Presentation decisions
  // ---------------------------------------------------------------------

  /** The left-border colours of `getPriorityColor`. */
  datatype Border = GrayBorder | RedBorder | OrangeBorder | BlueBorder

  /** `getPriorityColor`: a completed task is gray whatever its priority;
      otherwise CRITICAL is red, HIGH orange, MEDIUM blue and LOW gray. */
  function PriorityBorder(task: Task): (r: Border)
    ensures task.status == Completed ==> r == GrayBorder
    ensures r == RedBorder <==> task.status == Pending && task.priority == Critical
    ensures r == OrangeBorder <==> task.status == Pending && task.priority == High
    ensures r == BlueBorder <==> task.status == Pending && task.priority == Medium
  {
    match task.status
    case Completed => GrayBorder
    case Pending =>
      match task.priority
      case Critical => RedBorder
      case High => OrangeBorder
      case Medium => BlueBorder
      case Low => GrayBorder
  }

  /** The assign button is rendered only for tasks that are not COMPLETED. */
  predicate AssignButtonVisible(task: Task) {
    task.status != Completed
  }

  /** A completed card offers no assign button and has the gray border,
      whatever the task's priority. */
  lemma CompletedCardHidesAssign(task: Task)
    requires task.status == Completed
    ensures !AssignButtonVisible(task)
    ensures PriorityBorder(task) == GrayBorder
  {
  }

  /** `assignee`: the first user whose id is the task's assignee; a dangling
      id finds nobody. */
  function AssigneeOf(task: Task, users: seq<User>): (r: Option<User>)
    ensures task.assignedToId.None? ==> r.None?
    ensures task.assignedToId.Some? ==>
      (r.None? <==> NoneMatch(users, HasId(task.assignedToId.value)))
    ensures r.Some? ==>
      && task.assignedToId.Some?
      && exists i :: IsFirst(users, i, HasId(task.assignedToId.value)) && users[i] == r.value
  {
    match task.assignedToId
    case None => None
    case Some(id) => Find(users, HasId(id))
  }

  /** What the assign button shows. */
  datatype AssignLabel = Busy | Abandon | Claim | Blank

  /** The button reads "..." while processing, "Abandonar" on my task,
      "Assumir" when no stored user holds the task (a dangling id included),
      and nothing when another stored user holds it. */
  function AssignButtonLabel(task: Task, me: User, users: seq<User>, isProcessing: bool): (r: AssignLabel)
    ensures isProcessing <==> r == Busy
    ensures !isProcessing ==> (r == Abandon <==> IsAssignedToMe(task, me))
    ensures !isProcessing && !IsAssignedToMe(task, me) ==>
      (r == Claim <==> task.assignedToId.None? || NoneMatch(users, HasId(task.assignedToId.value)))
  {
    if isProcessing then Busy
    else if IsAssignedToMe(task, me) then Abandon
    else if AssigneeOf(task, users).None? then Claim
    else Blank
  }
}
