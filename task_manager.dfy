/** The client-side task list of the TaskManager component: the list of
    tasks confirmed by the server, the filter the user picked, the view
    derived from both, and the loading flag of the first fetch. */
module TaskManager {
  import opened Tasks
  import opened Sequences

  /** The filter buttons: every task, or only those with one status. */
  datatype ViewFilter = All | Only(status: Status)

  /** Whether a task is shown under a filter. */
  predicate Shows(f: ViewFilter, t: Task)
  {
    f.All? || t.status == f.status
  }

  function HasStatus(s: Status): (matches: Task -> bool)
  {
    (t: Task) => t.status == s
  }

  function HasOtherId(id: TaskId): (kept: Task -> bool)
  {
    (t: Task) => t.id != id
  }

  // ---------------------------------------------------------------------
  // The list transforms
  // ---------------------------------------------------------------------

  /** The filtered view: the whole list under "all", otherwise the tasks
      whose status is the selected one. */
  function FilteredView(tasks: seq<Task>, f: ViewFilter): (r: seq<Task>)
    ensures f.All? ==> r == tasks
    ensures forall i :: 0 <= i < |r| ==> r[i] in tasks && Shows(f, r[i])
    ensures forall i :: 0 <= i < |tasks| && Shows(f, tasks[i]) ==> tasks[i] in r
  {
    if f.All? then tasks else Filter(tasks, HasStatus(f.status))
  }

  /** The view keeps the shown tasks in list order and drops the others:
      `idx` lists, in increasing order, the positions of `tasks` the view is
      made of, and it lists exactly the positions whose task is shown. */
  lemma FilteredViewInOrder(tasks: seq<Task>, f: ViewFilter) returns (idx: seq<nat>)
    ensures |idx| == |FilteredView(tasks, f)|
    ensures forall k :: 0 <= k < |idx| ==> idx[k] < |tasks| && FilteredView(tasks, f)[k] == tasks[idx[k]]
    ensures forall k, l :: 0 <= k < l < |idx| ==> idx[k] < idx[l]
    ensures forall i :: 0 <= i < |tasks| ==> (i in idx <==> Shows(f, tasks[i]))
  {
    if f.All? {
      idx := seq(|tasks|, i requires 0 <= i < |tasks| => i);
      assert forall i :: 0 <= i < |tasks| ==> idx[i] == i;
    } else {
      idx := FilterIndices(tasks, HasStatus(f.status));
    }
  }

  /** The status a toggle asks the server for: "pending" when the current
      status reads "completed", "completed" for anything else. */
  function ToggledStatus(current: string): (s: Status)
    ensures s == Pending <==> current == StatusName(Completed)
  {
    if current == "completed" then Pending else Completed
  }

  /** Toggling always moves a task to the other status, so toggling twice
      brings either status back. */
  lemma ToggleTwiceRestores(s: Status)
    ensures ToggledStatus(StatusName(s)) != s
    ensures ToggledStatus(StatusName(ToggledStatus(StatusName(s)))) == s
  {
  }

  /** The list after a confirmed delete: every task carrying `id` is gone and
      every other task is kept. */
  function RemoveById(tasks: seq<Task>, id: TaskId): (r: seq<Task>)
    ensures |r| <= |tasks|
    ensures forall i :: 0 <= i < |r| ==> r[i].id != id && r[i] in tasks
    ensures forall i :: 0 <= i < |tasks| && tasks[i].id != id ==> tasks[i] in r
  {
    Filter(tasks, HasOtherId(id))
  }

  /** A delete keeps the remaining tasks in their relative order: `idx`
      lists, increasingly, exactly the positions whose task has another id. */
  lemma RemoveByIdInOrder(tasks: seq<Task>, id: TaskId) returns (idx: seq<nat>)
    ensures |idx| == |RemoveById(tasks, id)|
    ensures forall k :: 0 <= k < |idx| ==> idx[k] < |tasks| && RemoveById(tasks, id)[k] == tasks[idx[k]]
    ensures forall k, l :: 0 <= k < l < |idx| ==> idx[k] < idx[l]
    ensures forall i :: 0 <= i < |tasks| ==> (i in idx <==> tasks[i].id != id)
  {
    idx := FilterIndices(tasks, HasOtherId(id));
  }

  /** Deleting an id that is not in the list changes nothing; in particular a
      second delete of the same id is a no-op. */
  lemma RemoveAbsentId(tasks: seq<Task>, id: TaskId)
    requires forall i :: 0 <= i < |tasks| ==> tasks[i].id != id
    ensures RemoveById(tasks, id) == tasks
  {
    FilterKeepsAll(tasks, HasOtherId(id));
  }

  lemma RemoveByIdIdempotent(tasks: seq<Task>, id: TaskId)
    ensures RemoveById(RemoveById(tasks, id), id) == RemoveById(tasks, id)
  {
    RemoveAbsentId(RemoveById(tasks, id), id);
  }

  /** Deleting from the list and then filtering gives the same view as
      deleting from the view: the view never shows a deleted task. */
  lemma RemoveByIdCommutesWithView(tasks: seq<Task>, id: TaskId, f: ViewFilter)
    ensures FilteredView(RemoveById(tasks, id), f) == RemoveById(FilteredView(tasks, f), id)
  {
    if f.Only? {
      FilterCommutes(tasks, HasOtherId(id), HasStatus(f.status));
    }
  }

  /** The list after a confirmed toggle: each entry whose id matches is
      replaced by the server's record, every other entry stays in place. */
  function ReplaceById(tasks: seq<Task>, id: TaskId, updated: Task): (r: seq<Task>)
    ensures |r| == |tasks|
    ensures forall i :: 0 <= i < |tasks| ==> r[i] == (if tasks[i].id == id then updated else tasks[i])
  {
    seq(|tasks|, i requires 0 <= i < |tasks| => if tasks[i].id == id then updated else tasks[i])
  }

  /** When the server returns the record under the same id, the list keeps
      its ids in the same order; when no entry matches, nothing changes. */
  lemma ReplaceByIdKeepsIds(tasks: seq<Task>, id: TaskId, updated: Task)
    ensures updated.id == id ==> Ids(ReplaceById(tasks, id, updated)) == Ids(tasks)
    ensures (forall i :: 0 <= i < |tasks| ==> tasks[i].id != id) ==> ReplaceById(tasks, id, updated) == tasks
  {
  }

  /** A confirmed toggle of a task whose id occurs once, answered with a
      record in the other status, moves exactly one task from one status
      count to the other and leaves the total alone. */
  lemma ToggleMovesOneTaskBetweenCounts(tasks: seq<Task>, i: nat, updated: Task)
    requires i < |tasks|
    requires forall j :: 0 <= j < |tasks| && j != i ==> tasks[j].id != tasks[i].id
    requires updated.status != tasks[i].status
    ensures CountFor(ReplaceById(tasks, tasks[i].id, updated), Only(updated.status))
         == CountFor(tasks, Only(updated.status)) + 1
    ensures CountFor(ReplaceById(tasks, tasks[i].id, updated), Only(tasks[i].status))
         == CountFor(tasks, Only(tasks[i].status)) - 1
    ensures CountFor(ReplaceById(tasks, tasks[i].id, updated), All) == CountFor(tasks, All)
  {
    var r := ReplaceById(tasks, tasks[i].id, updated);
    var before, after := tasks[..i], tasks[i + 1..];
    assert tasks == before + [tasks[i]] + after;
    assert r == before + [updated] + after;
    forall s: Status
      ensures |Filter(tasks, HasStatus(s))|
           == |Filter(before, HasStatus(s))| + |Filter([tasks[i]], HasStatus(s))| + |Filter(after, HasStatus(s))|
      ensures |Filter(r, HasStatus(s))|
           == |Filter(before, HasStatus(s))| + |Filter([updated], HasStatus(s))| + |Filter(after, HasStatus(s))|
    {
      FilterAppend(before + [tasks[i]], after, HasStatus(s));
      FilterAppend(before, [tasks[i]], HasStatus(s));
      FilterAppend(before + [updated], after, HasStatus(s));
      FilterAppend(before, [updated], HasStatus(s));
    }
  }

  /** The list after a task was created: the new task first, then the old list. */
  function Prepend(tasks: seq<Task>, newTask: Task): (r: seq<Task>)
    ensures |r| == |tasks| + 1 && r[0] == newTask && r[1..] == tasks
  {
    [newTask] + tasks
  }

  /** The number next to a filter button. */
  function CountFor(tasks: seq<Task>, f: ViewFilter): (n: nat)
    ensures f.All? ==> n == |tasks|
  {
    if f.All? then |tasks| else |Filter(tasks, HasStatus(f.status))|
  }

  /** Each button's count is the size of the view it selects, and because a
      status has only two values the pending and completed counts add up to
      the total. */
  lemma CountsAddUp(tasks: seq<Task>)
    ensures forall f :: CountFor(tasks, f) == |FilteredView(tasks, f)|
    ensures CountFor(tasks, Only(Pending)) + CountFor(tasks, Only(Completed)) == CountFor(tasks, All)
  {
    FilterComplementLength(tasks, HasStatus(Pending), HasStatus(Completed));
  }

  // ---------------------------------------------------------------------
  // The component state
  // ---------------------------------------------------------------------

  /** What the first fetch delivered: the list, or a failure (the request
      failed, the response was not ok, or its body could not be read). */
  datatype FetchResult = Fetched(data: seq<Task>) | FetchFailed

  class Component {
    var tasks: seq<Task>
    var filteredTasks: seq<Task>
    var filter: ViewFilter
    var loading: bool

    /** The derived view is up to date with the list and the filter. */
    ghost predicate Valid()
      reads this
    {
      filteredTasks == FilteredView(tasks, filter)
    }

    /** The state on first render: no tasks, filter "all", loading. */
    constructor ()
      ensures Valid()
      ensures tasks == [] && filteredTasks == [] && filter == All && loading
    {
      tasks := [];
      filteredTasks := [];
      filter := All;
      loading := true;
    }

    /** Recomputes the derived view after the list or the filter changed. */
    method RefreshView()
      modifies this
      ensures Valid()
      ensures tasks == old(tasks) && filter == old(filter) && loading == old(loading)
    {
      filteredTasks := FilteredView(tasks, filter);
    }

    /** The first fetch: a delivered list replaces the current one, a
        failure leaves it as it was; either way loading ends. */
    method FetchTasks(result: FetchResult)
      modifies this
      ensures Valid() && !loading && filter == old(filter)
      ensures tasks == if result.Fetched? then result.data else old(tasks)
    {
      if result.Fetched? {
        tasks := result.data;
      }
      loading := false;
      RefreshView();
    }

    /** Deletes a task once the server confirmed it; a response that is not
        ok leaves the state unchanged. */
    method DeleteTask(id: TaskId, responseOk: bool)
      requires Valid()
      modifies this
      ensures Valid() && filter == old(filter) && loading == old(loading)
      ensures tasks == if responseOk then RemoveById(old(tasks), id) else old(tasks)
      ensures responseOk ==> forall i :: 0 <= i < |tasks| ==> tasks[i].id != id
      ensures filteredTasks == if responseOk then RemoveById(old(filteredTasks), id) else old(filteredTasks)
    {
      if !responseOk {
        return;
      }
      tasks := RemoveById(tasks, id);
      RemoveByIdCommutesWithView(old(tasks), id, filter);
      RefreshView();
    }

    /** Asks the server for the opposite status and, when it answers with
        the updated record, puts that record in place of the task. `reply`
        is None when the response was not ok or could not be read. */
    method ToggleStatus(id: TaskId, currentStatus: string, reply: Option<Task>) returns (requested: Status)
      requires Valid()
      modifies this
      ensures Valid() && filter == old(filter) && loading == old(loading)
      ensures requested == ToggledStatus(currentStatus)
      ensures tasks == if reply.Some? then ReplaceById(old(tasks), id, reply.value) else old(tasks)
    {
      requested := ToggledStatus(currentStatus);
      if reply.None? {
        return;
      }
      tasks := ReplaceById(tasks, id, reply.value);
      RefreshView();
    }

    /** Puts a task the server just created at the front of the list. */
    method AddTask(newTask: Task)
      requires Valid()
      modifies this
      ensures Valid() && filter == old(filter) && loading == old(loading)
      ensures tasks == Prepend(old(tasks), newTask)
    {
      tasks := Prepend(tasks, newTask);
      RefreshView();
    }

    /** A click on a filter button. */
    method SetFilter(f: ViewFilter)
      requires Valid()
      modifies this
      ensures Valid() && tasks == old(tasks) && loading == old(loading)
      ensures filter == f
    {
      filter := f;
      RefreshView();
    }
  }

  /** Mounting the component: the initial state, then the first fetch. After
      it loading is over, and a failed fetch leaves the list empty. */
  method Mount(result: FetchResult) returns (c: Component)
    ensures fresh(c) && c.Valid() && !c.loading && c.filter == All
    ensures c.tasks == if result.Fetched? then result.data else []
  {
    c := new Component();
    c.FetchTasks(result);
  }
}
