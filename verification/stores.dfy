/**
  The document store the handlers talk to, as a value: the project collection
  (name to project id), the issue collection (id to record), the clock and the
  supply of fresh object ids, which projects and issues draw from alike.
 */
module Stores {
  import opened ObjectIds
  import opened Issues

  datatype Store = Store(
    projects: map<string, ObjectId>,
    issues: map<ObjectId, Issue>,
    clock: Time,
    nextId: ObjectId)

  /** A store with no projects and no issues. */
  function EmptyStore(): (s: Store)
    ensures Valid(s)
  {
    Store(map[], map[], 0, 0)
  }

  /** `pid` is the id of some project. */
  ghost predicate IsProjectId(s: Store, pid: ObjectId) {
    exists name | name in s.projects :: s.projects[name] == pid
  }

  /** What every stored issue satisfies. */
  ghost predicate IssueValid(s: Store, issue: Issue) {
    && IsProjectId(s, issue.projectId)
    && issue.createdOn <= issue.updatedOn <= s.clock
    && issue.title != "" && issue.text != "" && issue.createdBy != ""
  }

  /**
    The invariant of reachable stores: every id handed out comes from the
    supply, project ids are distinct, and every issue belongs to a project,
    has updated_on no earlier than created_on and non-empty required fields.
   */
  ghost predicate Valid(s: Store) {
    && (forall name | name in s.projects :: s.projects[name] < s.nextId)
    && (forall a, b | a in s.projects && b in s.projects && a != b :: s.projects[a] != s.projects[b])
    && (forall id | id in s.issues :: id < s.nextId)
    && (forall id | id in s.issues :: IssueValid(s, s.issues[id]))
  }

  /**
    `Project.findOne` by name, saving a new project when there is none:
    returns the project's id and the store afterwards.
   */
  function FindOrCreateProject(s: Store, name: string): (r: (ObjectId, Store))
    ensures name in r.1.projects && r.1.projects[name] == r.0
    ensures name in s.projects ==> r.1 == s
    ensures name !in s.projects ==>
      && r.0 == s.nextId
      && r.1 == s.(projects := s.projects[name := r.0], nextId := s.nextId + 1)
  {
    if name in s.projects then (s.projects[name], s)
    else (s.nextId, s.(projects := s.projects[name := s.nextId], nextId := s.nextId + 1))
  }

  /** Finding or creating a project keeps the store valid and touches no issue. */
  lemma FindOrCreateProjectValid(s: Store, name: string)
    requires Valid(s)
    ensures Valid(FindOrCreateProject(s, name).1)
    ensures FindOrCreateProject(s, name).1.issues == s.issues
    ensures FindOrCreateProject(s, name).1.clock == s.clock
  {
    var (pid, s1) := FindOrCreateProject(s, name);
    forall id | id in s1.issues ensures IssueValid(s1, s1.issues[id]) {
      var issue := s.issues[id];
      var owner :| owner in s.projects && s.projects[owner] == issue.projectId;
      assert s1.projects[owner] == issue.projectId;
    }
  }

  /** A project id of a valid store never equals the next fresh id, so no issue has it. */
  lemma FreshIdIsNoProject(s: Store)
    requires Valid(s)
    ensures !IsProjectId(s, s.nextId)
    ensures forall id | id in s.issues :: s.issues[id].projectId != s.nextId
  {
  }
}
