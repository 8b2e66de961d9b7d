/** Properties of the four handlers, each relating a handler to an independent statement. */
module ApiProperties {
  import opened Wrappers
  import opened ObjectIds
  import opened Text
  import opened Issues
  import opened Stores
  import opened IssueApi

  // ---------------------------------------------------------------- GET

  /**
    What GET selects, phrased on the returned view: the issue belongs to the
    project, and every supplied query key equals the view field of that name
    (`open` after the text-to-boolean rule, `_id` after the cast).
   */
  ghost predicate Selects(query: Fields, pid: ObjectId, id: ObjectId, issue: Issue) {
    var v := ConvertIssue(id, issue);
    && issue.projectId == pid
    && ("_id" in query ==> ParseObjectId(query["_id"]) == Some(v.id))
    && ("issue_title" in query ==> query["issue_title"] == v.issueTitle)
    && ("issue_text" in query ==> query["issue_text"] == v.issueText)
    && ("created_by" in query ==> query["created_by"] == v.createdBy)
    && ("assigned_to" in query ==> query["assigned_to"] == v.assignedTo)
    && ("status_text" in query ==> query["status_text"] == v.statusText)
    && ("open" in query ==> v.open == IsTrueText(query["open"]))
  }

  lemma MatchesIffSelects(query: Fields, pid: ObjectId, f: Filter, id: ObjectId, issue: Issue)
    requires BuildFilter(pid, query) == Some(f)
    ensures Matches(f, id, issue) <==> Selects(query, pid, id, issue)
  {
  }

  /**
    GET with a well-formed (or no) `_id` filter lists the converted form of
    exactly the selected issues of the route project, each once.
   */
  lemma GetListsExactlySelected(s: Store, projectName: string, query: Fields)
    requires Valid(s)
    requires "_id" in query ==> ValidId(query["_id"])
    ensures var r := Get(s, projectName, query);
      && r.response.IssueList?
      && var pid := r.store.projects[projectName];
      && var list := r.response.issues;
      && (forall i | 0 <= i < |list| ::
            && list[i].id in r.store.issues
            && list[i] == ConvertIssue(list[i].id, r.store.issues[list[i].id])
            && Selects(query, pid, list[i].id, r.store.issues[list[i].id]))
      && (forall id | id in r.store.issues && Selects(query, pid, id, r.store.issues[id]) ::
            ConvertIssue(id, r.store.issues[id]) in list)
      && (forall i, j | 0 <= i < j < |list| :: list[i] != list[j])
  {
  }

  /** Nothing below `bound` passes the filter: the list is empty. */
  lemma {:induction false} CollectNone(issues: map<ObjectId, Issue>, f: Filter, bound: nat)
    requires forall id | id in issues && id < bound :: !Matches(f, id, issues[id])
    ensures Collect(issues, f, bound) == []
  {
    if bound > 0 {
      CollectNone(issues, f, bound - 1);
    }
  }

  /** Exactly one issue below `bound` passes the filter: the list is that issue alone. */
  lemma {:induction false} CollectOne(issues: map<ObjectId, Issue>, f: Filter, bound: nat, id: ObjectId)
    requires id in issues && id < bound && Matches(f, id, issues[id])
    requires forall other | other in issues && other < bound && other != id :: !Matches(f, other, issues[other])
    ensures Collect(issues, f, bound) == [ConvertIssue(id, issues[id])]
  {
    var last := bound - 1;
    if last == id {
      CollectNone(issues, f, id);
      assert Collect(issues, f, bound) == Collect(issues, f, last) + [ConvertIssue(id, issues[id])];
    } else {
      assert !(last in issues && Matches(f, last, issues[last]));
      assert Collect(issues, f, bound) == Collect(issues, f, last);
      CollectOne(issues, f, last, id);
    }
  }

  /** A project GET has just created has no issues, whatever the filters. */
  lemma GetOfNewProjectIsEmpty(s: Store, projectName: string, query: Fields)
    requires Valid(s)
    requires projectName !in s.projects
    requires "_id" in query ==> ValidId(query["_id"])
    ensures Get(s, projectName, query).response == IssueList([])
  {
    FreshIdIsNoProject(s);
    var (pid, s1) := FindOrCreateProject(s, projectName);
    CollectNone(s1.issues, BuildFilter(pid, query).value, s1.nextId);
  }

  /** A GET by the rendered id of an issue of the route project lists exactly that issue. */
  lemma GetByIdListsOne(s: Store, projectName: string, id: ObjectId)
    requires id < Pow16(IdWidth)
    requires projectName in s.projects && id in s.issues && id < s.nextId
    requires s.issues[id].projectId == s.projects[projectName]
    ensures Get(s, projectName, map["_id" := ToHexString(id)]).response
         == IssueList([ConvertIssue(id, s.issues[id])])
  {
    var query := map["_id" := ToHexString(id)];
    ParseRendered(id);
    var f := BuildFilter(s.projects[projectName], query).value;
    assert f.id == Some(id);
    CollectOne(s.issues, f, s.nextId, id);
  }

  // ---------------------------------------------------------------- POST

  /** POST fails exactly when a required field is absent or empty, and then changes nothing. */
  lemma PostMissingField(s: Store, projectName: string, body: Fields, elapsed: Time)
    ensures var r := Post(s, projectName, body, elapsed);
      (r.response == Error(MissingField) <==>
        || !("issue_title" in body) || body["issue_title"] == ""
        || !("issue_text" in body) || body["issue_text"] == ""
        || !("created_by" in body) || body["created_by"] == "")
      && (r.response == Error(MissingField) ==> r.store == s)
  {
  }

  /**
    A successful POST adds exactly one issue under a fresh id, open, in the
    route project (created first when absent), with the given fields and ""
    for an absent assigned_to or status_text, and returns its view.
   */
  lemma PostAddsOneIssue(s: Store, projectName: string, body: Fields, elapsed: Time)
    requires Valid(s)
    requires "issue_title" in body && body["issue_title"] != ""
    requires "issue_text" in body && body["issue_text"] != ""
    requires "created_by" in body && body["created_by"] != ""
    ensures var r := Post(s, projectName, body, elapsed);
      && r.response.CreatedIssue?
      && var id := r.response.issue.id;
      && id !in s.issues && id in r.store.issues
      && r.store.issues == s.issues[id := r.store.issues[id]]
      && var issue := r.store.issues[id];
      && r.response.issue == ConvertIssue(id, issue)
      && issue.title == body["issue_title"]
      && issue.text == body["issue_text"]
      && issue.createdBy == body["created_by"]
      && issue.assignedTo == Field(body, "assigned_to").GetOr("")
      && issue.status == Field(body, "status_text").GetOr("")
      && issue.open
      && s.clock <= issue.createdOn == issue.updatedOn
      && projectName in r.store.projects
      && issue.projectId == r.store.projects[projectName]
      && r.store.projects == s.projects[projectName := issue.projectId]
      && (projectName !in s.projects ==> !IsProjectId(s, issue.projectId))
  {
    FreshIdIsNoProject(s);
  }

  /**
    Create then look up by the rendered id: a GET on the new issue's id lists
    exactly that issue, as POST returned it.
   */
  lemma PostThenGetById(s: Store, projectName: string, body: Fields, elapsed: Time)
    requires Valid(s)
    requires s.nextId + 1 < Pow16(IdWidth)
    requires "issue_title" in body && body["issue_title"] != ""
    requires "issue_text" in body && body["issue_text"] != ""
    requires "created_by" in body && body["created_by"] != ""
    ensures var r := Post(s, projectName, body, elapsed);
      && r.response.CreatedIssue?
      && var query := map["_id" := ToHexString(r.response.issue.id)];
      && Get(r.store, projectName, query).response == IssueList([r.response.issue])
  {
    var r := Post(s, projectName, body, elapsed);
    PostAddsOneIssue(s, projectName, body, elapsed);
    GetByIdListsOne(r.store, projectName, r.response.issue.id);
  }

  // ---------------------------------------------------------------- PUT

  /** The six body fields PUT may change. */
  const UpdateKeys: set<string> :=
    {"issue_title", "issue_text", "created_by", "assigned_to", "status_text", "open"}

  /** Every field PUT may change is absent or empty. */
  ghost predicate AllUpdateFieldsEmpty(body: Fields) {
    forall k | k in UpdateKeys :: k !in body || body[k] == ""
  }

  /** PUT's "nothing to update" guard is exactly: all six update fields absent or empty. */
  lemma PutNothingToUpdateMeans(body: Fields)
    ensures NothingToUpdate(body) <==> AllUpdateFieldsEmpty(body)
  {
  }

  /**
    PUT validates in order: a falsy `_id` gives MISSING_ID whatever else is
    sent; with an `_id`, NO_UPDATE_FIELD with that id comes exactly when all
    six update fields are absent or empty. Neither touches the store.
   */
  lemma PutValidationOrder(s: Store, projectName: string, body: Fields, elapsed: Time)
    ensures var r := Put(s, projectName, body, elapsed);
      && (!("_id" in body) || body["_id"] == "" ==> r == Reply(Error(MissingId), s))
      && ("_id" in body && body["_id"] != "" ==>
            && (r.response == ErrorWithId(NoUpdateField, body["_id"]) <==> AllUpdateFieldsEmpty(body))
            && (AllUpdateFieldsEmpty(body) ==> r.store == s))
  {
    PutNothingToUpdateMeans(body);
  }

  /**
    Past validation, PUT answers COULD_NOT_UPDATE with the id exactly when the
    route project is missing, the id does not cast, or no issue of ANY
    project has it, and then the store is unchanged; it answers UPDATE_SUCCESS
    with the id exactly when none of these holds.
   */
  lemma PutCouldNotUpdate(s: Store, projectName: string, body: Fields, elapsed: Time)
    requires "_id" in body && body["_id"] != "" && !AllUpdateFieldsEmpty(body)
    ensures var r := Put(s, projectName, body, elapsed);
      var parsed := ParseObjectId(body["_id"]);
      && (r.response == ErrorWithId(CouldNotUpdate, body["_id"]) <==>
            projectName !in s.projects || parsed.None? || parsed.value !in s.issues)
      && (r.response == Success(UpdateSuccess, body["_id"]) <==>
            projectName in s.projects && parsed.Some? && parsed.value in s.issues)
      && (r.response.ErrorWithId? ==> r.store == s)
      && (r.response.Success? ==> r.response == Success(UpdateSuccess, body["_id"]))
  {
    PutNothingToUpdateMeans(body);
  }

  /**
    A successful PUT replaces each string field by the given value when that
    is non-empty and keeps it otherwise, changes `open` only for a non-empty
    `open` (to the text-to-boolean rule), refreshes updated_on, and keeps the
    id, project, created_on and every other issue.
   */
  lemma PutMergesFields(s: Store, projectName: string, body: Fields, elapsed: Time)
    requires Valid(s)
    requires Put(s, projectName, body, elapsed).response.Success?
    ensures "_id" in body && ParseObjectId(body["_id"]).Some?
    ensures var r := Put(s, projectName, body, elapsed);
      var id := ParseObjectId(body["_id"]).value;
      && id in s.issues && id in r.store.issues
      && r.store.issues == s.issues[id := r.store.issues[id]]
      && var prior := s.issues[id];
      && var after := r.store.issues[id];
      && (after.title == if Field(body, "issue_title").GetOr("") == "" then prior.title else body["issue_title"])
      && (after.text == if Field(body, "issue_text").GetOr("") == "" then prior.text else body["issue_text"])
      && (after.createdBy == if Field(body, "created_by").GetOr("") == "" then prior.createdBy else body["created_by"])
      && (after.assignedTo == if Field(body, "assigned_to").GetOr("") == "" then prior.assignedTo else body["assigned_to"])
      && (after.status == if Field(body, "status_text").GetOr("") == "" then prior.status else body["status_text"])
      && (after.open == if Field(body, "open").GetOr("") == "" then prior.open else IsTrueText(body["open"]))
      && prior.updatedOn <= after.updatedOn == r.store.clock
      && after.createdOn == prior.createdOn
      && after.projectId == prior.projectId
  {
  }

  // ---------------------------------------------------------------- DELETE

  /**
    DELETE gives MISSING_ID for a falsy `_id`; otherwise COULD_NOT_DELETE with
    the id exactly when the route project is missing, the id does not cast, or
    no issue has it, and DELETE_SUCCESS with the id exactly when none of these
    holds. No failure touches the store.
   */
  lemma DeleteFailures(s: Store, projectName: string, body: Fields)
    ensures var r := Delete(s, projectName, body);
      && (!("_id" in body) || body["_id"] == "" ==> r == Reply(Error(MissingId), s))
      && ("_id" in body && body["_id"] != "" ==>
            var parsed := ParseObjectId(body["_id"]);
            && (r == Reply(ErrorWithId(CouldNotDelete, body["_id"]), s) <==>
                  projectName !in s.projects || parsed.None? || parsed.value !in s.issues)
            && (r.response == Success(DeleteSuccess, body["_id"]) <==>
                  projectName in s.projects && parsed.Some? && parsed.value in s.issues))
  {
  }

  /** A successful DELETE removes exactly the named issue and echoes the id. */
  lemma DeleteRemovesOne(s: Store, projectName: string, body: Fields)
    requires Delete(s, projectName, body).response.Success?
    ensures "_id" in body && ParseObjectId(body["_id"]).Some?
    ensures var r := Delete(s, projectName, body);
      var id := ParseObjectId(body["_id"]).value;
      && r.response == Success(DeleteSuccess, body["_id"])
      && id in s.issues && id !in r.store.issues
      && s.issues == r.store.issues[id := s.issues[id]]
  {
  }

  /**
    Deleting the same stored issue twice: DELETE_SUCCESS, then COULD_NOT_DELETE
    with the store unchanged.
   */
  lemma DeleteTwice(s: Store, projectName: string, body: Fields)
    requires "_id" in body && body["_id"] != "" && projectName in s.projects
    requires ParseObjectId(body["_id"]).Some? && ParseObjectId(body["_id"]).value in s.issues
    ensures var r1 := Delete(s, projectName, body);
      var r2 := Delete(r1.store, projectName, body);
      && r1.response == Success(DeleteSuccess, body["_id"])
      && r2 == Reply(ErrorWithId(CouldNotDelete, body["_id"]), r1.store)
  {
  }

  // ---------------------------------------------------------------- invariants

  lemma GetPreservesValid(s: Store, projectName: string, query: Fields)
    requires Valid(s)
    ensures Valid(Get(s, projectName, query).store)
  {
    FindOrCreateProjectValid(s, projectName);
  }

  lemma PostPreservesValid(s: Store, projectName: string, body: Fields, elapsed: Time)
    requires Valid(s)
    ensures Valid(Post(s, projectName, body, elapsed).store)
  {
    var r := Post(s, projectName, body, elapsed);
    if r.response.CreatedIssue? {
      var (pid, s1) := FindOrCreateProject(s, projectName);
      FindOrCreateProjectValid(s, projectName);
      var s2 := r.store;
      forall id | id in s2.issues ensures IssueValid(s2, s2.issues[id]) {
        if id in s1.issues {
          assert IssueValid(s1, s1.issues[id]);
          var owner :| owner in s1.projects && s1.projects[owner] == s1.issues[id].projectId;
          assert s2.projects[owner] == s2.issues[id].projectId;
        } else {
          assert s2.projects[projectName] == s2.issues[id].projectId;
        }
      }
    }
  }

  lemma PutPreservesValid(s: Store, projectName: string, body: Fields, elapsed: Time)
    requires Valid(s)
    ensures Valid(Put(s, projectName, body, elapsed).store)
  {
  }

  lemma DeletePreservesValid(s: Store, projectName: string, body: Fields)
    requires Valid(s)
    ensures Valid(Delete(s, projectName, body).store)
  {
  }

  // ---------------------------------------------------------------- allow-lists

  /** Only keep the fields a handler reads. */
  function Only(fields: Fields, keys: set<string>): (r: Fields)
    ensures r.Keys == fields.Keys * keys
  {
    map k | k in fields && k in keys :: fields[k]
  }

  /** Query fields outside GET's allow-list change nothing. */
  lemma GetIgnoresOtherKeys(s: Store, projectName: string, query: Fields)
    ensures Get(s, projectName, query) == Get(s, projectName, Only(query, GetKeys))
  {
  }

  /** Body fields outside POST's allow-list change nothing. */
  lemma PostIgnoresOtherKeys(s: Store, projectName: string, body: Fields, elapsed: Time)
    ensures Post(s, projectName, body, elapsed) == Post(s, projectName, Only(body, PostKeys), elapsed)
  {
  }

  /** Body fields outside PUT's allow-list change nothing. */
  lemma PutIgnoresOtherKeys(s: Store, projectName: string, body: Fields, elapsed: Time)
    ensures Put(s, projectName, body, elapsed) == Put(s, projectName, Only(body, PutKeys), elapsed)
  {
  }

  /** Body fields other than `_id` change nothing for DELETE. */
  lemma DeleteIgnoresOtherKeys(s: Store, projectName: string, body: Fields)
    ensures Delete(s, projectName, body) == Delete(s, projectName, Only(body, DeleteKeys))
  {
  }
}
