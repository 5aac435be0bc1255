/** The task record shared by the client component and the task routes. */
module Tasks {

  datatype Option<+T> = None | Some(value: T)

  type TaskId = string
  type UserId = string

  /** An abstract, totally ordered creation time; larger is newer. */
  type Timestamp = int

  /** The two values a task's status can take. */
  datatype Status = Pending | Completed

  /** The text a status travels as, in request bodies and in the client. */
  function StatusName(s: Status): (name: string)
    ensures name == "pending" || name == "completed"
    ensures (name == "completed") == (s == Completed)
  {
    match s
    case Pending => "pending"
    case Completed => "completed"
  }

  datatype Task = Task(
    id: TaskId,
    title: string,
    description: string,
    dueDate: string,
    status: Status,
    userId: UserId,
    createdAt: Timestamp)

  /** The identifiers of a list of tasks, in list order. */
  function Ids(tasks: seq<Task>): (ids: seq<TaskId>)
    ensures |ids| == |tasks|
    ensures forall i :: 0 <= i < |tasks| ==> ids[i] == tasks[i].id
  {
    seq(|tasks|, i requires 0 <= i < |tasks| => tasks[i].id)
  }

  /** No identifier occurs twice. */
  ghost predicate UniqueIds(tasks: seq<Task>)
  {
    forall i, j :: 0 <= i < j < |tasks| ==> tasks[i].id != tasks[j].id
  }
}
