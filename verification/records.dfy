/** The rows the route handlers of pythonsrc/api/main.py read and write, held
    in memory: each table is a sequence of immutable records. */
module Records {
  import opened Wrappers
  import opened JsonUtil
  import AccessUtil

  datatype Cdh = Cdh(id: int, sectionId: int)

  datatype Task = Task(id: int, name: string, workflowOrder: int)

  /** A project's task state, joined with its task. */
  datatype TaskState = TaskState(projectId: int, task: Task)

  datatype Project = Project(
    id: int,
    cdhId: Option<int>,
    clusteringId: Option<int>,
    ownerUserId: int,
    currentTaskId: Option<int>,
    viewstateForBranchBuilder: Value,
    viewstateForCannBoundaryBuilder: Value)

  datatype Cluster = Cluster(id: int, clusteringId: int)

  datatype Branch = Branch(id: int, cdhId: int)

  datatype BranchSku = BranchSku(branchId: int, cdhId: Option<int>, skuId: int)

  /** The mapping of a CDH item, or of a single CDH item SKU, to a branch. */
  datatype CdhItemMember = CdhItemMember(
    projectId: int,
    branchId: int,
    cdhItemId: Option<int>,
    cdhItemSkuId: Option<int>)

  datatype CdhItemSku = CdhItemSku(id: int, skuId: int)

  /** A ranging decision for one branch SKU in one cluster of a project. */
  datatype Decision = Decision(
    id: int,
    projectId: int,
    clusterId: int,
    branchSkuId: int,
    assignedStartingBayId: Option<int>,
    recommendedStartingBayId: Option<int>,
    comment: Option<string>,
    isActiveChoice: bool)

  /** A node of the CDH tree view; root nodes have no parent node type. */
  datatype CdhNode = CdhNode(id: int, nodeType: string, parentId: Option<int>, parentNodeType: Option<string>)

  /** The database state a request sees. */
  datatype Db = Db(
    users: seq<AccessUtil.User>,
    cdhs: seq<Cdh>,
    tasks: seq<Task>,
    projects: seq<Project>,
    taskStates: seq<TaskState>,
    clusters: seq<Cluster>,
    branches: seq<Branch>,
    branchSkus: seq<BranchSku>,
    members: seq<CdhItemMember>,
    itemSkus: seq<CdhItemSku>,
    decisions: seq<Decision>)

  /** Python truthiness of a nullable integer column. */
  predicate TruthyId(x: Option<int>)
  {
    x.Some? && x.value != 0
  }
}
