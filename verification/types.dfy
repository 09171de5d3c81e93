/** The entities the data service stores: users, elderly profiles and care
    tasks, plus the envelope every mutating operation returns.

    Field names and enumerations follow their uses in services/dbService.ts,
    constants.ts and components/TaskCard.tsx (types.ts is not part of this
    model). Timestamps are opaque ISO strings: nothing in the modelled code
    parses or compares them.
 */
module Types {

  /** A value that may be missing: JavaScript's `null` / `undefined`. */
  datatype Option<+T> = None | Some(value: T)

  /** The `{success, data?/error?}` envelope (`ActionResponse<T>`). */
  datatype Response<+T> = Ok(data: T) | Err(error: string)

  /** The empty payload of operations that return `ActionResponse<void>`. */
  datatype Unit = Unit

  datatype Role = Admin | Member

  datatype User = User(
    id: string,
    name: string,
    email: string,
    password: string,
    avatarUrl: string,
    role: Role,
    color: string)

  datatype Gender = Male | Female

  datatype ElderlyProfile = ElderlyProfile(
    id: string,
    name: string,
    gender: Gender,
    avatarUrl: string,
    conditions: seq<string>,
    notes: string)

  datatype TaskStatus = Pending | Completed

  datatype TaskPriority = Low | Medium | High | Critical

  datatype TaskType = Medication | Meal | Hygiene | Activity | Other

  datatype Task = Task(
    id: string,
    title: string,
    description: string,
    elderlyId: string,
    assignedToId: Option<string>,   // `null` when nobody has claimed the task
    createdBy: string,
    scheduledAt: string,
    completedAt: Option<string>,    // `undefined` unless stamped on completion
    status: TaskStatus,
    priority: TaskPriority,
    kind: TaskType)
}
