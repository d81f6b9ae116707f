/** The read-only routes of pythonsrc/api/main.py, as filters over the
    in-memory tables: the project list, the branch lookup and the CDH tree. */
module Listings {
  import opened Wrappers
  import opened Seqs
  import opened ApiUtil
  import opened Records

  /** A project as the list query returns it: with the section of its CDH
      (outer join, so possibly absent) and its task states in workflow order. */
  datatype ProjectView = ProjectView(project: Project, sectionId: Option<int>, taskStates: seq<TaskState>)

  /** The section of the project's CDH, when it has one. */
  function SectionOf(db: Db, p: Project): Option<int>
  {
    match p.cdhId
    case None => None
    case Some(c) =>
      match First((cdh: Cdh) => cdh.id == c, db.cdhs)
      case None => None
      case Some(cdh) => Some(cdh.sectionId)
  }

  function WorkflowOrder(ts: TaskState): int
  {
    ts.task.workflowOrder
  }

  /** The project's task states, ordered by their task's workflow order. */
  function TaskStatesOf(db: Db, projectId: int): (r: seq<TaskState>)
    ensures SortedBy(r, WorkflowOrder)
    ensures multiset(r) == multiset(Filter((ts: TaskState) => ts.projectId == projectId, db.taskStates))
  {
    SortBy(Filter((ts: TaskState) => ts.projectId == projectId, db.taskStates), WorkflowOrder)
  }

  /** The view's task states are in workflow order. */
  predicate InWorkflowOrder(v: ProjectView)
  {
    SortedBy(v.taskStates, WorkflowOrder)
  }

  /** A project's view: the project itself, the section of its CDH, and
      exactly its own task states, in workflow order. */
  function View(db: Db, p: Project): (v: ProjectView)
    ensures v.project == p
    ensures v.sectionId == SectionOf(db, p)
    ensures multiset(v.taskStates) == multiset(Filter((ts: TaskState) => ts.projectId == p.id, db.taskStates))
    ensures InWorkflowOrder(v)
  {
    ProjectView(p, SectionOf(db, p), TaskStatesOf(db, p.id))
  }

  /** One view per stored project, in storage order. */
  function Views(db: Db): (r: seq<ProjectView>)
    ensures |r| == |db.projects|
    ensures forall i :: 0 <= i < |r| ==> r[i] == View(db, db.projects[i])
    ensures forall i :: 0 <= i < |r| ==> InWorkflowOrder(r[i])
  {
    seq(|db.projects|, i requires 0 <= i < |db.projects| => View(db, db.projects[i]))
  }

  /** The inner join with the owner: projects whose owner is not a user drop out. */
  predicate OwnerKnown(db: Db, v: ProjectView)
  {
    exists u :: u in db.users && u.id == v.project.ownerUserId
  }

  /** A project passes the list's filters. A filter applies only when its
      argument is truthy, so an absent argument or 0 leaves it off. */
  predicate Listed(db: Db, sectionId: Arg<int>, ownerUserId: Arg<int>, v: ProjectView)
  {
    && OwnerKnown(db, v)
    && (TruthyInt(sectionId) ==> v.sectionId == Some(sectionId.value))
    && (TruthyInt(ownerUserId) ==> v.project.ownerUserId == ownerUserId.value)
  }

  /** `Listed` for fixed arguments, as a filter predicate. */
  function ListedBy(db: Db, sectionId: Arg<int>, ownerUserId: Arg<int>): ProjectView -> bool
  {
    (v: ProjectView) => Listed(db, sectionId, ownerUserId, v)
  }

  function ProjectId(v: ProjectView): int
  {
    v.project.id
  }

  /** `get_projects`: the listed projects, ordered by project id, each with
      its task states in workflow order. */
  function GetProjects(db: Db, sectionId: Arg<int>, ownerUserId: Arg<int>): (r: seq<ProjectView>)
    ensures forall i :: 0 <= i < |r| ==> r[i] in Views(db) && Listed(db, sectionId, ownerUserId, r[i])
    ensures forall i :: 0 <= i < |db.projects| && Listed(db, sectionId, ownerUserId, Views(db)[i]) ==>
      Views(db)[i] in r
    ensures multiset(r) == multiset(Filter(ListedBy(db, sectionId, ownerUserId), Views(db)))
    ensures SortedBy(r, ProjectId)
    ensures forall i :: 0 <= i < |r| ==> InWorkflowOrder(r[i])
  {
    var views := Views(db);
    var listed := ListedBy(db, sectionId, ownerUserId);
    var r := SortedFilter(listed, views, ProjectId);
    forall i | 0 <= i < |r|
      ensures InWorkflowOrder(r[i])
    {
      var k :| 0 <= k < |views| && views[k] == r[i];
    }
    r
  }

  /** The owner join alone, as a filter predicate. */
  function OwnerKnownBy(db: Db): ProjectView -> bool
  {
    (v: ProjectView) => OwnerKnown(db, v)
  }

  /** Without truthy filters, exactly the projects with a known owner are
      listed, each once. */
  lemma UnfilteredListsAll(db: Db, sectionId: Arg<int>, ownerUserId: Arg<int>)
    requires !TruthyInt(sectionId) && !TruthyInt(ownerUserId)
    ensures multiset(GetProjects(db, sectionId, ownerUserId)) == multiset(Filter(OwnerKnownBy(db), Views(db)))
  {
    FilterSame(ListedBy(db, sectionId, ownerUserId), OwnerKnownBy(db), Views(db));
  }

  /** A branch row the branch query yields: the project's CDH, a cluster of
      the project's clustering, at least one BranchSku, and, when a truthy
      branch id is given, that id. */
  predicate BranchSelected(db: Db, projectId: int, cluster: int, branchId: Arg<int>, b: Branch)
  {
    && (exists p :: p in db.projects && p.id == projectId && p.cdhId == Some(b.cdhId)
          && exists c :: c in db.clusters && c.id == cluster && p.clusteringId == Some(c.clusteringId))
    && (exists bs :: bs in db.branchSkus && bs.branchId == b.id)
    && (TruthyInt(branchId) ==> b.id == branchId.value)
  }

  /** `get_branches`: the selected branches, in storage order. */
  function GetBranches(db: Db, projectId: int, cluster: int, branchId: Arg<int>): (r: seq<Branch>)
    ensures forall i :: 0 <= i < |r| ==> r[i] in db.branches && BranchSelected(db, projectId, cluster, branchId, r[i])
    ensures forall i :: 0 <= i < |db.branches| && BranchSelected(db, projectId, cluster, branchId, db.branches[i]) ==>
      db.branches[i] in r
    ensures TruthyInt(branchId) ==> forall i :: 0 <= i < |r| ==> r[i].id == branchId.value
  {
    Filter((b: Branch) => BranchSelected(db, projectId, cluster, branchId, b), db.branches)
  }

  /** A truthy branch id narrows the full branch list to that id, keeping order. */
  lemma BranchIdNarrows(db: Db, projectId: int, cluster: int, branchId: int)
    requires branchId != 0
    ensures GetBranches(db, projectId, cluster, Given(branchId))
         == Filter((b: Branch) => b.id == branchId, GetBranches(db, projectId, cluster, Missing))
  {
    FilterFilter((b: Branch) => b.id == branchId,
                 (b: Branch) => BranchSelected(db, projectId, cluster, Missing, b),
                 (b: Branch) => BranchSelected(db, projectId, cluster, Given(branchId), b),
                 db.branches);
  }

  /** The `{'items': ...}` answer of the CDH tree route. */
  datatype CdhTreeReply = CdhTreeReply(items: seq<CdhNode>)

  predicate IsRoot(n: CdhNode)
  {
    n.parentNodeType.None?
  }

  /** `get_cdh_tree`: the nodes without a parent node type, in their original order. */
  function GetCdhTree(nodes: seq<CdhNode>): (r: CdhTreeReply)
    ensures forall i :: 0 <= i < |r.items| ==> r.items[i] in nodes && IsRoot(r.items[i])
    ensures forall i :: 0 <= i < |nodes| && IsRoot(nodes[i]) ==> nodes[i] in r.items
    ensures |r.items| <= |nodes|
  {
    CdhTreeReply(Filter(IsRoot, nodes))
  }

  /** The tree of two consecutive node lists is the two trees in sequence,
      so the original order of the roots is kept. */
  lemma GetCdhTreeKeepsOrder(a: seq<CdhNode>, b: seq<CdhNode>)
    ensures GetCdhTree(a + b).items == GetCdhTree(a).items + GetCdhTree(b).items
  {
    FilterAppend(IsRoot, a, b);
  }

  /** Taking the top level of the top level changes nothing. */
  lemma GetCdhTreeIdempotent(nodes: seq<CdhNode>)
    ensures GetCdhTree(GetCdhTree(nodes).items) == GetCdhTree(nodes)
  {
    FilterKeepsAll(IsRoot, GetCdhTree(nodes).items);
  }
}
