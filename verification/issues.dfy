/** The stored issue record and the shape the API returns it in. */
module Issues {
  import opened ObjectIds

  /** Abstract clock readings; only their order matters. */
  type Time = nat

  /** A stored issue: the fields of the issue schema. */
  datatype Issue = Issue(
    title: string,
    text: string,
    createdOn: Time,
    updatedOn: Time,
    createdBy: string,
    assignedTo: string,
    open: bool,
    status: string,
    projectId: ObjectId)

  /** An issue as a response carries it: store fields under their API names, no project. */
  datatype IssueView = IssueView(
    id: ObjectId,
    issueTitle: string,
    issueText: string,
    createdOn: Time,
    updatedOn: Time,
    createdBy: string,
    assignedTo: string,
    open: bool,
    statusText: string)

  /** Takes a view back to the stored record, given the project it belongs to. */
  function Restore(v: IssueView, projectId: ObjectId): (ObjectId, Issue) {
    (v.id, Issue(v.issueTitle, v.issueText, v.createdOn, v.updatedOn, v.createdBy,
                 v.assignedTo, v.open, v.statusText, projectId))
  }

  /**
    The field mapper of the handlers: title, text and status are renamed to
    issue_title, issue_text and status_text; the id, both timestamps, created_by,
    assigned_to and open are copied; the project id is dropped.
   */
  function ConvertIssue(id: ObjectId, issue: Issue): (v: IssueView)
    ensures Restore(v, issue.projectId) == (id, issue)
  {
    IssueView(id, issue.title, issue.text, issue.createdOn, issue.updatedOn,
              issue.createdBy, issue.assignedTo, issue.open, issue.status)
  }

  /** Two issues of one project with the same view are the same issue. */
  lemma ConvertInjective(id1: ObjectId, i1: Issue, id2: ObjectId, i2: Issue)
    requires i1.projectId == i2.projectId
    requires ConvertIssue(id1, i1) == ConvertIssue(id2, i2)
    ensures id1 == id2 && i1 == i2
  {
  }
}
