/** Issues and their assignees, as the allocation engine reads them. */
module Issues {
  import opened Wrappers
  import opened Dates
  import opened Calendar

  /**
   * A Redmine user.  `mainGroupId` is the user's main group, which the
   * group view compares with the group id (a validation keeps it one of the
   * user's groups).
   */
  datatype UserRec = UserRec(id: int, lastname: string, mainGroupId: Option<int>)

  /** A Redmine group. */
  datatype GroupRec = GroupRec(id: int, lastname: string)

  /** What an issue can be assigned to. */
  datatype Principal = User(user: UserRec) | Group(group: GroupRec)

  /**
   * The attributes of an issue the engine reads.  `closed` is
   * `issue.closed?`, `visible` is `issue.visible?` for the current user, and
   * `hasChildren` is `issue.children.any?`.
   */
  datatype Issue = Issue(
    id: int,
    assignedTo: Option<Principal>,
    projectId: int,
    startDate: Option<Date>,
    dueDate: Option<Date>,
    estimatedHours: Option<real>,
    doneRatio: int,
    hasChildren: bool,
    closed: bool,
    visible: bool)

  /** The calendar key of an assignee: `'all'` when nobody is assigned, otherwise the principal's id. */
  function CalendarKeyOf(assignee: Option<Principal>): (k: AssigneeKey)
    ensures k.All? <==> assignee.None?
    ensures assignee.Some? && assignee.value.User? ==> k == UserId(assignee.value.user.id)
    ensures assignee.Some? && assignee.value.Group? ==> k == GroupId(assignee.value.group.id)
  {
    match assignee
    case None => All
    case Some(User(u)) => UserId(u.id)
    case Some(Group(g)) => GroupId(g.id)
  }

  /**
   * `issue_overdue?(issue, date)` of `WlIssueState`, which is also what
   * Redmine's `Issue#overdue?` computes against the current user's today.
   */
  function IssueOverdue(issue: Issue, date: Date): (r: bool)
    ensures issue.dueDate.None? ==> !r
    ensures issue.closed ==> !r
    ensures issue.dueDate.Some? && issue.dueDate.value >= date ==> !r
    ensures !issue.closed && issue.dueDate.Some? && issue.dueDate.value < date ==> r
  {
    issue.dueDate.Some? && issue.dueDate.value < date && !issue.closed
  }

  /** An issue overdue at some date stays overdue at every later date. */
  lemma OverdueMonotone(issue: Issue, date: Date, later: Date)
    requires IssueOverdue(issue, date) && date <= later
    ensures IssueOverdue(issue, later)
  {
  }

  /**
   * `estimated_time_for_issue` / `getEstimatedTimeForIssue`: the estimate
   * weighted by the part not done yet; nothing for an issue without an
   * estimate or with children.
   */
  function RemainingHours(issue: Issue): (r: real)
    ensures issue.estimatedHours.None? || issue.hasChildren ==> r == 0.0
  {
    if issue.estimatedHours.None? then 0.0
    else if issue.hasChildren then 0.0
    else issue.estimatedHours.value * ((100.0 - issue.doneRatio as real) / 100.0)
  }

  /**
   * For a done ratio in 0..100 and a non-negative estimate the remaining
   * hours lie between 0 and the estimate: all of it at 0 % done, none at
   * 100 %, and they shrink as the done ratio grows.
   */
  lemma RemainingHoursBounds(issue: Issue)
    requires 0 <= issue.doneRatio <= 100
    requires issue.estimatedHours.Some? ==> issue.estimatedHours.value >= 0.0
    ensures 0.0 <= RemainingHours(issue)
    ensures issue.estimatedHours.Some? ==> RemainingHours(issue) <= issue.estimatedHours.value
    ensures issue.estimatedHours.Some? && !issue.hasChildren && issue.doneRatio == 0 ==>
      RemainingHours(issue) == issue.estimatedHours.value
    ensures issue.doneRatio == 100 ==> RemainingHours(issue) == 0.0
  {
    if issue.estimatedHours.Some? && !issue.hasChildren {
      var e := issue.estimatedHours.value;
      var f := (100.0 - issue.doneRatio as real) / 100.0;
      assert 0.0 <= f <= 1.0;
      assert 0.0 <= e * f <= e * 1.0;
    }
  }

  lemma RemainingHoursMonotone(issue: Issue, done: int)
    requires issue.doneRatio <= done
    requires issue.estimatedHours.Some? ==> issue.estimatedHours.value >= 0.0
    ensures RemainingHours(issue.(doneRatio := done)) <= RemainingHours(issue)
  {
    if issue.estimatedHours.Some? && !issue.hasChildren {
      var e := issue.estimatedHours.value;
      var f, g := (100.0 - issue.doneRatio as real) / 100.0, (100.0 - done as real) / 100.0;
      assert g <= f;
      assert e * g <= e * f;
    }
  }
}
