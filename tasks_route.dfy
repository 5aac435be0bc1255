/** The collection route for tasks: GET lists the signed-in user's tasks,
    newest first; POST creates a task for the signed-in user. The session,
    the store, the store-generated identifier and the clock are inputs. */
module TasksRoute {
  import opened Tasks
  import opened Sequences

  /** The task store as a handler sees it: reachable with its documents, or
      failing (the connection or the store operation throws). */
  datatype Db = Up(docs: seq<Task>) | Down

  datatype Payload =
    | Error(message: string)
    | TaskList(tasks: seq<Task>)
    | Created(task: Task)

  datatype Response = Response(status: int, payload: Payload)

  const UnauthorizedResponse := Response(401, Error("Unauthorized"))
  const FieldsRequiredResponse := Response(400, Error("All fields are required"))
  const InternalErrorResponse := Response(500, Error("Internal server error"))

  /** The session carries a user id that is not empty (an empty id is falsy
      and is turned away like a missing one). */
  predicate Authorized(session: Option<UserId>)
  {
    session.Some? && session.value != ""
  }

  function OwnedBy(u: UserId): (owned: Task -> bool)
  {
    (t: Task) => t.userId == u
  }

  // ---------------------------------------------------------------------
  // The store's sort on createdAt, descending
  // ---------------------------------------------------------------------

  ghost predicate NewestFirst(s: seq<Task>)
  {
    forall i, j :: 0 <= i < j < |s| ==> s[i].createdAt >= s[j].createdAt
  }

  /** Puts `t` into a newest-first list, before every task that is not newer. */
  function InsertNewestFirst(t: Task, s: seq<Task>): (r: seq<Task>)
    requires NewestFirst(s)
    ensures NewestFirst(r)
    ensures multiset(r) == multiset(s) + multiset{t}
    ensures |r| == |s| + 1
    ensures r[0] == t || (s != [] && r[0] == s[0])
  {
    if s == [] || t.createdAt >= s[0].createdAt then
      [t] + s
    else
      assert s == [s[0]] + s[1..];
      [s[0]] + InsertNewestFirst(t, s[1..])
  }

  /** The order the store returns a query in: newest first, same tasks. */
  function SortNewestFirst(s: seq<Task>): (r: seq<Task>)
    ensures NewestFirst(r)
    ensures multiset(r) == multiset(s)
  {
    if s == [] then []
    else
      assert s == [s[0]] + s[1..];
      InsertNewestFirst(s[0], SortNewestFirst(s[1..]))
  }

  /** The query of GET: the user's documents, newest first. */
  function OwnTasksNewestFirst(docs: seq<Task>, u: UserId): (r: seq<Task>)
    ensures NewestFirst(r)
    ensures forall t :: multiset(r)[t] == if t.userId == u then multiset(docs)[t] else 0
  {
    FilterMultiset(docs, OwnedBy(u));
    SortNewestFirst(Filter(docs, OwnedBy(u)))
  }

  lemma FilterMultiset(docs: seq<Task>, p: Task -> bool)
    ensures forall t :: multiset(Filter(docs, p))[t] == if p(t) then multiset(docs)[t] else 0
  {
    forall t | true
      ensures multiset(Filter(docs, p))[t] == if p(t) then multiset(docs)[t] else 0
    {
      FilterCount(docs, p, t);
    }
  }

  // ---------------------------------------------------------------------
  // GET
  // ---------------------------------------------------------------------

  /** GET: 401 without a signed-in user, 500 when the store fails, and
      otherwise the user's tasks, and only theirs, newest first. */
  function Get(session: Option<UserId>, db: Db): (r: Response)
    ensures !Authorized(session) ==> r == UnauthorizedResponse
    ensures Authorized(session) && db.Down? ==> r == InternalErrorResponse
    ensures r.status == 200 <==> Authorized(session) && db.Up?
    ensures r.status == 200 ==>
      && r.payload.TaskList?
      && NewestFirst(r.payload.tasks)
      && forall t :: multiset(r.payload.tasks)[t] == if t.userId == session.value then multiset(db.docs)[t] else 0
  {
    if !Authorized(session) then
      UnauthorizedResponse
    else if db.Down? then
      InternalErrorResponse
    else
      Response(200, TaskList(OwnTasksNewestFirst(db.docs, session.value)))
  }

  /** Every task GET returns belongs to the requesting user, and every task
      of that user in the store is returned. */
  lemma GetListsExactlyOwnTasks(session: Option<UserId>, db: Db)
    requires Authorized(session) && db.Up?
    ensures forall t :: t in Get(session, db).payload.tasks <==> t in db.docs && t.userId == session.value
  {
  }

  /** A request without a signed-in user is answered without consulting the
      store: the answer is the same whatever the store holds. */
  lemma GetUnauthorizedIgnoresStore(session: Option<UserId>, db1: Db, db2: Db)
    requires !Authorized(session)
    ensures Get(session, db1) == Get(session, db2) == UnauthorizedResponse
  {
  }

  // ---------------------------------------------------------------------
  // POST
  // ---------------------------------------------------------------------

  /** The parsed body of a create request. Only the three task fields are
      read; a `status` or `userId` the client sends is carried along only to
      show that it is ignored. */
  datatype CreateBody = CreateBody(
    title: Option<string>,
    description: Option<string>,
    dueDate: Option<string>,
    status: Option<string>,
    userId: Option<string>)

  /** A field that is absent or the empty string (falsy). */
  predicate Blank(field: Option<string>)
  {
    field.None? || field.value == ""
  }

  predicate MissingField(b: CreateBody)
  {
    Blank(b.title) || Blank(b.description) || Blank(b.dueDate)
  }

  /** The outcome of POST: the response and the store afterwards. */
  datatype PostResult = PostResult(response: Response, db: Db)

  /** POST. `body` is None when the request body cannot be read as JSON or
      cannot be destructured into fields (a `null` body, say);
      `newId` is the identifier the store generates and `now` the clock. */
  function Post(session: Option<UserId>, body: Option<CreateBody>, db: Db, newId: TaskId, now: Timestamp): (out: PostResult)
    ensures !Authorized(session) ==> out == PostResult(UnauthorizedResponse, db)
    ensures Authorized(session) && body.None? ==> out == PostResult(InternalErrorResponse, db)
    ensures Authorized(session) && body.Some? && MissingField(body.value) ==> out == PostResult(FieldsRequiredResponse, db)
    ensures Authorized(session) && body.Some? && !MissingField(body.value) && db.Down? ==> out == PostResult(InternalErrorResponse, db)
    ensures out.response.status == 200 <==> Authorized(session) && body.Some? && !MissingField(body.value) && db.Up?
    ensures out.response.status != 200 ==> out.db == db
    ensures out.response.status == 200 ==>
      && out.response.payload.Created?
      && var t := out.response.payload.task;
      && t.id == newId
      && t.title == body.value.title.value
      && t.description == body.value.description.value
      && t.dueDate == body.value.dueDate.value
      && t.status == Pending
      && t.userId == session.value
      && t.createdAt == now
      && out.db == Up(db.docs + [t])
  {
    if !Authorized(session) then
      PostResult(UnauthorizedResponse, db)
    else if body.None? then
      PostResult(InternalErrorResponse, db)
    else if MissingField(body.value) then
      PostResult(FieldsRequiredResponse, db)
    else if db.Down? then
      PostResult(InternalErrorResponse, db)
    else
      var b := body.value;
      var t := Task(newId, b.title.value, b.description.value, b.dueDate.value, Pending, session.value, now);
      PostResult(Response(200, Created(t)), Up(db.docs + [t]))
  }

  /** A `status` or `userId` in the body makes no difference to the outcome. */
  lemma PostIgnoresClientOwnershipFields(session: Option<UserId>, b1: CreateBody, b2: CreateBody, db: Db, newId: TaskId, now: Timestamp)
    requires b1.title == b2.title && b1.description == b2.description && b1.dueDate == b2.dueDate
    ensures Post(session, Some(b1), db, newId, now) == Post(session, Some(b2), db, newId, now)
  {
  }

  /** A created task shows up in its owner's next listing. */
  lemma CreatedTaskIsListedForOwner(session: Option<UserId>, body: Option<CreateBody>, db: Db, newId: TaskId, now: Timestamp)
    requires Post(session, body, db, newId, now).response.status == 200
    ensures Post(session, body, db, newId, now).response.payload.task
      in Get(session, Post(session, body, db, newId, now).db).payload.tasks
  {
  }

  /** Ownership isolation: a task created by one user changes nothing in
      any other user's listing. */
  lemma CreatedTaskIsInvisibleToOthers(session: Option<UserId>, body: Option<CreateBody>, db: Db, newId: TaskId, now: Timestamp, other: Option<UserId>)
    requires Post(session, body, db, newId, now).response.status == 200
    requires other != session
    ensures Get(other, Post(session, body, db, newId, now).db) == Get(other, db)
  {
    var out := Post(session, body, db, newId, now);
    var t := out.response.payload.task;
    if Authorized(other) {
      var u := other.value;
      var p := OwnedBy(u);
      assert out.db.docs == db.docs + [t];
      FilterAppend(db.docs, [t], p);
      assert !p(t);
      assert Filter([t], p) == [];
      assert Filter(out.db.docs, p) == Filter(db.docs, p);
      assert OwnTasksNewestFirst(out.db.docs, u) == OwnTasksNewestFirst(db.docs, u);
    }
  }

  /** The store generates identifiers it has not used, so a successful POST
      keeps identifiers unique. */
  lemma PostKeepsIdsUnique(session: Option<UserId>, body: Option<CreateBody>, db: Db, newId: TaskId, now: Timestamp)
    requires db.Up? && UniqueIds(db.docs)
    requires forall i :: 0 <= i < |db.docs| ==> db.docs[i].id != newId
    ensures Post(session, body, db, newId, now).db.Up?
    ensures UniqueIds(Post(session, body, db, newId, now).db.docs)
  {
  }
}
