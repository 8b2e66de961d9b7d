/** The functional tests' scenarios, stated over any valid store. */
module Scenarios {
  import opened Wrappers
  import opened ObjectIds
  import opened Issues
  import opened Stores
  import opened IssueApi
  import opened ApiProperties

  /** "Create Issue with Every Field": the response echoes all five fields, open. */
  lemma CreateWithEveryField(s: Store, elapsed: Time)
    requires Valid(s)
    ensures var body := map["issue_title" := "title", "issue_text" := "text", "created_by" := "Joe",
                            "assigned_to" := "Tom", "status_text" := "In progress"];
      var r := Post(s, "test", body, elapsed);
      && r.response.CreatedIssue?
      && r.response.issue.issueTitle == "title" && r.response.issue.issueText == "text"
      && r.response.issue.createdBy == "Joe" && r.response.issue.assignedTo == "Tom"
      && r.response.issue.statusText == "In progress" && r.response.issue.open
  {
  }

  /** "Create Issue with Required Fields": assigned_to and status_text come back as "". */
  lemma CreateWithRequiredFields(s: Store, elapsed: Time)
    requires Valid(s)
    ensures var body := map["issue_title" := "test", "issue_text" := "test", "created_by" := "Joe"];
      var r := Post(s, "test", body, elapsed);
      && r.response.CreatedIssue?
      && r.response.issue.assignedTo == "" && r.response.issue.statusText == ""
  {
  }

  /** "Create Issue with Missing Required Fields": empty required fields are rejected. */
  lemma CreateWithEmptyRequiredFields(s: Store, elapsed: Time)
    ensures var body := map["issue_title" := "", "issue_text" := "", "created_by" := "",
                            "assigned_to" := "Tom", "status_text" := "Work in progress"];
      Post(s, "test-get", body, elapsed) == Reply(Error(MissingField), s)
  {
  }

  /**
    "View Issues with Multiple Filter": `title` is not a GET filter key, so
    the query filters on created_by alone.
   */
  lemma UnknownFilterKeyIgnored(s: Store)
    ensures Get(s, "test", map["title" := "test", "created_by" := "Joe"])
         == Get(s, "test", map["created_by" := "Joe"])
  {
  }

  /**
    PUT with an id and status_text alone changes the status and updated_on of
    that issue and nothing else, even when it belongs to another project than
    the route's: the lookup is by id alone.
   */
  lemma UpdateStatusOnly(s: Store, routeProject: string, id: ObjectId, elapsed: Time)
    requires Valid(s)
    requires id < Pow16(IdWidth) && id in s.issues && routeProject in s.projects
    ensures var body := map["_id" := ToHexString(id), "status_text" := "Changed"];
      var r := Put(s, routeProject, body, elapsed);
      && r.response == Success(UpdateSuccess, ToHexString(id))
      && r.store.issues == s.issues[id := s.issues[id].(status := "Changed", updatedOn := r.store.clock)]
  {
    ParseRendered(id);
  }

  /** "Update Issue with Missing _id", "... No Fields to Update", "... Invalid _id". */
  lemma UpdateRejections(s: Store, elapsed: Time)
    ensures Put(s, "test", map["status_text" := "Done"], elapsed) == Reply(Error(MissingId), s)
    ensures Put(s, "test-put", map["_id" := "60e7104bbac1314cc7eaca0d"], elapsed)
         == Reply(ErrorWithId(NoUpdateField, "60e7104bbac1314cc7eaca0d"), s)
    ensures Put(s, "test-put", map["_id" := "invalid _id", "issue_title" := "updated title"], elapsed).store == s
    ensures Put(s, "test-put", map["_id" := "invalid _id", "issue_title" := "updated title"], elapsed).response
         == ErrorWithId(CouldNotUpdate, "invalid _id")
  {
  }

  /**
    "Delete an Issue": deleting a new issue by the id POST returned succeeds
    and restores the issue collection; a second delete of that id fails.
   */
  lemma CreateThenDeleteTwice(s: Store, projectName: string, body: Fields, elapsed: Time)
    requires Valid(s)
    requires s.nextId + 1 < Pow16(IdWidth)
    requires "issue_title" in body && body["issue_title"] != ""
    requires "issue_text" in body && body["issue_text"] != ""
    requires "created_by" in body && body["created_by"] != ""
    ensures var r := Post(s, projectName, body, elapsed);
      && r.response.CreatedIssue?
      && var hex := ToHexString(r.response.issue.id);
      && var d1 := Delete(r.store, projectName, map["_id" := hex]);
      && var d2 := Delete(d1.store, projectName, map["_id" := hex]);
      && d1.response == Success(DeleteSuccess, hex)
      && d1.store.issues == s.issues
      && d2 == Reply(ErrorWithId(CouldNotDelete, hex), d1.store)
  {
    var r := Post(s, projectName, body, elapsed);
    PostAddsOneIssue(s, projectName, body, elapsed);
    var id := r.response.issue.id;
    ParseRendered(id);
    var hex := ToHexString(id);
    var body' := map["_id" := hex];
    assert Field(body', "_id") == Some(hex);
    assert projectName in r.store.projects && id in r.store.issues;
    var d1 := Delete(r.store, projectName, body');
    assert d1 == Reply(Success(DeleteSuccess, hex), r.store.(issues := r.store.issues - {id}));
    RemoveAdded(s.issues, id, r.store.issues[id]);
    DeleteTwice(r.store, projectName, body');
  }

  /** Adding a fresh key and removing it again gives the map back. */
  lemma RemoveAdded<K, V>(m: map<K, V>, k: K, v: V)
    requires k !in m
    ensures m[k := v] - {k} == m
  {
  }

  /** "Delete an Issue with Invalid _id" and "... with Missing _id". */
  lemma DeleteRejections(s: Store)
    ensures Delete(s, "test", map["_id" := "invalid _id"]).store == s
    ensures Delete(s, "test", map["_id" := "invalid _id"]).response == ErrorWithId(CouldNotDelete, "invalid _id")
    ensures Delete(s, "test", map[]) == Reply(Error(MissingId), s)
  {
  }
}
