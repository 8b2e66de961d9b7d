/**
  The `/api/issues/:project` resource: the GET, POST, PUT and DELETE handlers,
  each a function from the route's project name, the request fields and the
  store to the JSON response and the store afterwards.
 */
module IssueApi {
  import opened Wrappers
  import opened ObjectIds
  import opened Text
  import opened Issues
  import opened Stores

  /** The query string or body of a request: field name to string value. */
  type Fields = map<string, string>

  /** Destructuring one field: absent fields are `undefined`. */
  function Field(fields: Fields, key: string): Option<string> {
    if key in fields then Some(fields[key]) else None
  }

  /** The message constants a response carries in its `error` member. */
  datatype ErrorTag = MissingField | MissingId | NoUpdateField | CouldNotUpdate | CouldNotDelete

  /** The message constants a response carries in its `result` member. */
  datatype ResultTag = UpdateSuccess | DeleteSuccess

  datatype Response =
    | IssueList(issues: seq<IssueView>)      // GET: the JSON array
    | CreatedIssue(issue: IssueView)         // POST: the new issue
    | Error(error: ErrorTag)                 // { error }
    | ErrorWithId(error: ErrorTag, id: string)   // { error, _id }
    | Success(result: ResultTag, id: string)     // { result, _id }
    | CastFailure                            // { error: err.message } of GET's catch

  datatype Reply = Reply(response: Response, store: Store)

  /** The keys each handler reads; any other request field is ignored. */
  const GetKeys: set<string> :=
    {"_id", "issue_title", "issue_text", "created_by", "assigned_to", "open", "status_text"}
  const PostKeys: set<string> :=
    {"issue_title", "issue_text", "created_by", "assigned_to", "status_text"}
  const PutKeys: set<string> := GetKeys
  const DeleteKeys: set<string> := {"_id"}

  // ---------------------------------------------------------------- GET

  /** The `$match` stages of GET after the project stage; None means the stage is absent. */
  datatype Filter = Filter(
    projectId: ObjectId,
    id: Option<ObjectId>,
    title: Option<string>,
    text: Option<string>,
    open: Option<bool>,
    createdBy: Option<string>,
    assignedTo: Option<string>,
    status: Option<string>)

  /** Builds the pipeline; None when the `_id` filter cannot be cast to an object id. */
  function BuildFilter(projectId: ObjectId, query: Fields): (r: Option<Filter>)
    ensures r.None? <==> "_id" in query && !ValidId(query["_id"])
  {
    var rawId := Field(query, "_id");
    if rawId.Some? && ParseObjectId(rawId.value).None? then None
    else
      var open := Field(query, "open");
      Some(Filter(
        projectId,
        if rawId.Some? then ParseObjectId(rawId.value) else None,
        Field(query, "issue_title"),
        Field(query, "issue_text"),
        if open.Some? then Some(IsTrueText(open.value)) else None,
        Field(query, "created_by"),
        Field(query, "assigned_to"),
        Field(query, "status_text")))
  }

  predicate StageMatches<T(==)>(stage: Option<T>, value: T) {
    stage.None? || stage.value == value
  }

  /** An issue passes every stage of the pipeline. */
  predicate Matches(f: Filter, id: ObjectId, issue: Issue) {
    && issue.projectId == f.projectId
    && StageMatches(f.id, id)
    && StageMatches(f.title, issue.title)
    && StageMatches(f.text, issue.text)
    && StageMatches(f.open, issue.open)
    && StageMatches(f.createdBy, issue.createdBy)
    && StageMatches(f.assignedTo, issue.assignedTo)
    && StageMatches(f.status, issue.status)
  }

  /** The converted issues with id below `bound` that pass `f`, in ascending id order. */
  function Collect(issues: map<ObjectId, Issue>, f: Filter, bound: nat): (r: seq<IssueView>)
    ensures forall i | 0 <= i < |r| ::
      && r[i].id < bound && r[i].id in issues
      && Matches(f, r[i].id, issues[r[i].id])
      && r[i] == ConvertIssue(r[i].id, issues[r[i].id])
    ensures forall id | id in issues && id < bound && Matches(f, id, issues[id]) ::
      ConvertIssue(id, issues[id]) in r
    ensures forall i, j | 0 <= i < j < |r| :: r[i].id < r[j].id
  {
    if bound == 0 then []
    else
      var id := bound - 1;
      var earlier := Collect(issues, f, id);
      if id in issues && Matches(f, id, issues[id])
      then earlier + [ConvertIssue(id, issues[id])]
      else earlier
  }

  /**
    GET: finds or creates the project, casts the `_id` filter (a malformed one
    lands in the catch block, after the project was saved), and lists the
    project's issues passing every supplied filter.
   */
  function Get(s: Store, projectName: string, query: Fields): (r: Reply)
    ensures r.store.issues == s.issues && r.store.clock == s.clock
    ensures projectName in s.projects ==> r.store == s
    ensures projectName !in s.projects ==>
      && r.store.projects == s.projects[projectName := s.nextId]
      && r.store.nextId == s.nextId + 1
    ensures r.response.CastFailure? <==> "_id" in query && !ValidId(query["_id"])
    ensures r.response.IssueList? || r.response.CastFailure?
  {
    var (pid, s1) := FindOrCreateProject(s, projectName);
    match BuildFilter(pid, query)
    case None => Reply(CastFailure, s1)
    case Some(f) => Reply(IssueList(Collect(s1.issues, f, s1.nextId)), s1)
  }

  // ---------------------------------------------------------------- POST

  /**
    POST: rejects a request lacking a truthy issue_title, issue_text or
    created_by; otherwise finds or creates the project and saves a new open
    issue whose assigned_to and status default to "".
   */
  function Post(s: Store, projectName: string, body: Fields, elapsed: Time): (r: Reply)
    ensures r.response.Error? || r.response.CreatedIssue?
    ensures r.response.Error? ==> r.store == s
    ensures r.response.CreatedIssue? ==>
      && var id := r.response.issue.id;
      && s.nextId <= id && r.store.nextId == id + 1 && id in r.store.issues
      && r.store.issues == s.issues[id := r.store.issues[id]]
      && r.store.projects == s.projects[projectName := r.store.issues[id].projectId]
      && r.response.issue == ConvertIssue(id, r.store.issues[id])
      && r.response.issue.open
  {
    var title := Field(body, "issue_title");
    var text := Field(body, "issue_text");
    var createdBy := Field(body, "created_by");
    if !Truthy(title) || !Truthy(text) || !Truthy(createdBy) then Reply(Error(MissingField), s)
    else
      var (pid, s1) := FindOrCreateProject(s, projectName);
      var now := s1.clock + elapsed;
      var issue := Issue(
        title.value, text.value, now, now, createdBy.value,
        OrElse(Field(body, "assigned_to"), ""), true,
        OrElse(Field(body, "status_text"), ""), pid);
      var id := s1.nextId;
      Reply(CreatedIssue(ConvertIssue(id, issue)),
            s1.(issues := s1.issues[id := issue], clock := now, nextId := id + 1))
  }

  // ---------------------------------------------------------------- PUT

  /** The six fields PUT may change are all falsy. */
  predicate NothingToUpdate(body: Fields) {
    && !Truthy(Field(body, "issue_title"))
    && !Truthy(Field(body, "issue_text"))
    && !Truthy(Field(body, "created_by"))
    && !Truthy(Field(body, "assigned_to"))
    && !Truthy(Field(body, "status_text"))
    && !Truthy(Field(body, "open"))
  }

  /** The record after a successful PUT: `given || old` per field, and `open` only when given. */
  function Merge(prior: Issue, body: Fields, now: Time): Issue {
    var open := Field(body, "open");
    prior.(
      title := OrElse(Field(body, "issue_title"), prior.title),
      text := OrElse(Field(body, "issue_text"), prior.text),
      createdBy := OrElse(Field(body, "created_by"), prior.createdBy),
      assignedTo := OrElse(Field(body, "assigned_to"), prior.assignedTo),
      status := OrElse(Field(body, "status_text"), prior.status),
      updatedOn := now,
      open := if Truthy(open) then IsTrueText(open.value) else prior.open)
  }

  /**
    PUT: missing id first, then nothing to update; then the route project must
    exist and the id must cast and name a stored issue of any project, all
    three failing alike; otherwise the issue is merged and saved.
   */
  function Put(s: Store, projectName: string, body: Fields, elapsed: Time): (r: Reply)
    ensures r.store.projects == s.projects && r.store.nextId == s.nextId
    ensures r.store.issues.Keys == s.issues.Keys
    ensures !r.response.Success? ==> r.store == s
  {
    var rawId := Field(body, "_id");
    if !Truthy(rawId) then Reply(Error(MissingId), s)
    else if NothingToUpdate(body) then Reply(ErrorWithId(NoUpdateField, rawId.value), s)
    else if projectName !in s.projects then Reply(ErrorWithId(CouldNotUpdate, rawId.value), s)
    else match ParseObjectId(rawId.value)
      case None => Reply(ErrorWithId(CouldNotUpdate, rawId.value), s)
      case Some(id) =>
        if id !in s.issues then Reply(ErrorWithId(CouldNotUpdate, rawId.value), s)
        else
          var now := s.clock + elapsed;
          Reply(Success(UpdateSuccess, rawId.value),
                s.(issues := s.issues[id := Merge(s.issues[id], body, now)], clock := now))
  }

  // ---------------------------------------------------------------- DELETE

  /**
    DELETE: missing id first; then the route project must exist and the id
    must cast and name a stored issue of any project; otherwise that issue
    is removed.
   */
  function Delete(s: Store, projectName: string, body: Fields): (r: Reply)
    ensures r.store.projects == s.projects && r.store.nextId == s.nextId
    ensures r.store.issues.Keys <= s.issues.Keys
    ensures !r.response.Success? ==> r.store == s
  {
    var rawId := Field(body, "_id");
    if !Truthy(rawId) then Reply(Error(MissingId), s)
    else if projectName !in s.projects then Reply(ErrorWithId(CouldNotDelete, rawId.value), s)
    else match ParseObjectId(rawId.value)
      case None => Reply(ErrorWithId(CouldNotDelete, rawId.value), s)
      case Some(id) =>
        if id !in s.issues then Reply(ErrorWithId(CouldNotDelete, rawId.value), s)
        else Reply(Success(DeleteSuccess, rawId.value), s.(issues := s.issues - {id}))
  }
}
