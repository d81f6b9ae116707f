/** `set_task_complete` (pythonsrc/api/main.py): marking a workflow task of a
    project as complete, with the branch-SKU rebuild and the commit/rollback
    choice of the `build_branches` task. */
module TaskComplete {
  import opened Wrappers
  import opened Seqs
  import opened ApiUtil
  import opened Records

  /** The `Project` methods the handler calls, whose definitions are not part
      of this model. Deleting and mapping branch SKUs produce a new BranchSku
      table; the others may change anything. */
  datatype ProjectOps = ProjectOps(
    deleteBranchSkus: (Db, int) -> seq<BranchSku>,
    mapSkusToBranches: (Db, int, int, int) -> seq<BranchSku>,
    hasMappedAllCdhItems: (Db, int) -> bool,
    copyBranchesToCannBoundaries: (Db, int) -> Db,
    assignRecommendedClassificationAndSales: (Db, int) -> Db,
    completeTask: (Db, int, string) -> Db)

  const BuildBranches: string := "build_branches"
  const CannBoundaries: string := "cann_boundaries"
  const StrategicGuidance: string := "strategic_guidance"
  const UnmappedItemsMessage: string := "Some CDH Items have not been mapped to a branch"
  const InvalidTaskNameMessage: string := "Invalid task_name"

  /** The refusal for a task that is not the project's current one; it names the task. */
  function NotCurrentTaskMessage(taskName: string): (m: string)
    ensures |m| > 12 + |taskName|
    ensures m[..12] == "Cannot mark "
    ensures m[12..12 + |taskName|] == taskName
  {
    "Cannot mark " + taskName + " task as complete as it's not the current task."
  }

  /** A request's database session: the committed state and the working state
      holding uncommitted changes. */
  datatype Session = Session(committed: Db, working: Db) {

    /** Makes the working state durable. */
    function Commit(): (s: Session)
      ensures s.committed == working && s.working == working
    {
      Session(working, working)
    }

    /** Discards the working state. */
    function Rollback(): (s: Session)
      ensures s.committed == committed && s.working == committed
    {
      Session(committed, committed)
    }
  }

  /** A request that starts from `db` with nothing pending. */
  function Begin(db: Db): Session
  {
    Session(db, db)
  }

  /** The handler's answer and the committed state it leaves behind. */
  datatype Completion = Completion(response: Response, db: Db)

  /** The empty 200 answer of a completed task. */
  function Completed(): Response
  {
    Response(200, Text(""))
  }

  predicate MapsItem(m: CdhItemMember)
  {
    TruthyId(m.cdhItemId)
  }

  predicate MapsItemSku(m: CdhItemMember)
  {
    TruthyId(m.cdhItemSkuId)
  }

  /** The `CdhItemSku` row a member's `cdh_item_sku_id` refers to, if present. */
  function ItemSkuOf(itemSkus: seq<CdhItemSku>, m: CdhItemMember): Option<CdhItemSku>
    requires MapsItemSku(m)
  {
    First((s: CdhItemSku) => s.id == m.cdhItemSkuId.value, itemSkus)
  }

  /** A member whose item SKU row is missing: reading its `sku_id` fails. */
  predicate Dangling(itemSkus: seq<CdhItemSku>, m: CdhItemMember)
  {
    MapsItemSku(m) && ItemSkuOf(itemSkus, m).None?
  }

  /** The row a member with an item SKU adds: the member's branch, the given
      CDH and the SKU of the member's item; `None` when that item is missing. */
  function RowFor(itemSkus: seq<CdhItemSku>, cdhId: Option<int>, m: CdhItemMember): Option<BranchSku>
    requires MapsItemSku(m)
  {
    match ItemSkuOf(itemSkus, m)
    case None => None
    case Some(itemSku) => Some(BranchSku(m.branchId, cdhId, itemSku.skuId))
  }

  /** The rows the member loop adds by itself, in order, without the
      interleaved mapping calls; `None` when some member's item SKU row is
      missing. */
  function DirectRows(itemSkus: seq<CdhItemSku>, cdhId: Option<int>, members: seq<CdhItemMember>): Option<seq<BranchSku>>
  {
    if |members| == 0 then Some([])
    else
      match DirectRows(itemSkus, cdhId, members[1..])
      case None => None
      case Some(rest) =>
        if !MapsItemSku(members[0]) then Some(rest)
        else
          match RowFor(itemSkus, cdhId, members[0])
          case None => None
          case Some(row) => Some([row] + rest)
  }

  /** The direct rows exist exactly when no member's item SKU row is missing. */
  lemma {:induction false} DirectRowsExist(itemSkus: seq<CdhItemSku>, cdhId: Option<int>, members: seq<CdhItemMember>)
    ensures DirectRows(itemSkus, cdhId, members).None? <==>
      exists i :: 0 <= i < |members| && Dangling(itemSkus, members[i])
  {
    if |members| > 0 {
      var tail := members[1..];
      DirectRowsExist(itemSkus, cdhId, tail);
      if DirectRows(itemSkus, cdhId, tail).None? {
        var k :| 0 <= k < |tail| && Dangling(itemSkus, tail[k]);
        assert Dangling(itemSkus, members[k + 1]);
      } else if Dangling(itemSkus, members[0]) {
      } else {
        forall i | 0 <= i < |members|
          ensures !Dangling(itemSkus, members[i])
        {
          if i > 0 {
            assert members[i] == tail[i - 1];
          }
        }
      }
    }
  }

  /** The direct rows correspond one to one, in order, to the members with an
      item SKU: each is the row that member adds. */
  lemma {:induction false} DirectRowsMatchMembers(itemSkus: seq<CdhItemSku>, cdhId: Option<int>, members: seq<CdhItemMember>)
    requires DirectRows(itemSkus, cdhId, members).Some?
    ensures var rows := DirectRows(itemSkus, cdhId, members).value;
      var f := Filter(MapsItemSku, members);
      && |rows| == |f|
      && forall i :: 0 <= i < |f| ==> RowFor(itemSkus, cdhId, f[i]) == Some(rows[i])
  {
    if |members| > 0 {
      var m := members[0];
      var tail := members[1..];
      DirectRowsMatchMembers(itemSkus, cdhId, tail);
      assert members == [m] + tail;
      var rest := DirectRows(itemSkus, cdhId, tail).value;
      var ftail := Filter(MapsItemSku, tail);
      if MapsItemSku(m) {
        var row := RowFor(itemSkus, cdhId, m).value;
        var rows := DirectRows(itemSkus, cdhId, members).value;
        var f := Filter(MapsItemSku, members);
        assert rows == [row] + rest;
        assert f == [m] + ftail;
        forall i | 0 <= i < |f|
          ensures RowFor(itemSkus, cdhId, f[i]) == Some(rows[i])
        {
          if i > 0 {
            assert f[i] == ftail[i - 1] && rows[i] == rest[i - 1];
          }
        }
      } else {
        assert Filter(MapsItemSku, members) == ftail;
      }
    }
  }

  /** The BranchSku table after the loop, and the rows the loop added itself. */
  datatype Rebuilt = Rebuilt(table: seq<BranchSku>, added: seq<BranchSku>)

  /** The loop over a project's members: each member's item is handed to
      `map_skus_to_branches`, and each member with an item SKU adds its row
      to the table. The rows it adds are the direct rows, whatever the
      mapping calls do; a missing item SKU row stops the loop with a fault. */
  function RebuildBranchSkus(ops: ProjectOps, db: Db, projectId: int, cdhId: Option<int>,
                             members: seq<CdhItemMember>, table: seq<BranchSku>): (r: Result<Rebuilt, Fault>)
    ensures r.Failure? <==> DirectRows(db.itemSkus, cdhId, members).None?
    ensures r.Failure? ==> r.error == AttributeError("sku_id")
    ensures r.Success? ==> r.value.added == DirectRows(db.itemSkus, cdhId, members).value
    ensures r.Success? && (forall i :: 0 <= i < |members| ==> !MapsItem(members[i])) ==>
      r.value.table == table + r.value.added
    decreases |members|
  {
    if |members| == 0 then Success(Rebuilt(table, []))
    else
      var m := members[0];
      var mapped := if MapsItem(m)
        then ops.mapSkusToBranches(db.(branchSkus := table), projectId, m.cdhItemId.value, m.branchId)
        else table;
      if MapsItemSku(m) then
        match ItemSkuOf(db.itemSkus, m)
        case None => Failure(AttributeError("sku_id"))
        case Some(itemSku) =>
          var row := BranchSku(m.branchId, cdhId, itemSku.skuId);
          assert RowFor(db.itemSkus, cdhId, m) == Some(row);
          match RebuildBranchSkus(ops, db, projectId, cdhId, members[1..], mapped + [row])
          case Failure(e) => Failure(e)
          case Success(rest) =>
            assert (table + [row]) + rest.added == table + ([row] + rest.added);
            Success(Rebuilt(rest.table, [row] + rest.added))
      else
        RebuildBranchSkus(ops, db, projectId, cdhId, members[1..], mapped)
  }

  /** `map_skus_to_branches` only adds rows: the table it is given stays a
      prefix of the table it returns. */
  ghost predicate MapAppends(ops: ProjectOps, projectId: int)
  {
    forall d: Db, itemId: int, branchId: int ::
      d.branchSkus <= ops.mapSkusToBranches(d, projectId, itemId, branchId)
  }

  /** A prefix contributes all of its rows to the multiset of the whole. */
  lemma PrefixMultiset(a: seq<BranchSku>, b: seq<BranchSku>)
    requires a <= b
    ensures multiset(a) <= multiset(b)
  {
    assert b == a + b[|a|..];
  }

  /** One member's step of the loop: its item is mapped first, on the table
      as it stands, and then its own row, if it has an item SKU, is added
      after whatever the mapping produced. */
  lemma RebuildOneMember(ops: ProjectOps, db: Db, projectId: int, cdhId: Option<int>,
                         m: CdhItemMember, table: seq<BranchSku>)
    ensures var mapped := if MapsItem(m)
        then ops.mapSkusToBranches(db.(branchSkus := table), projectId, m.cdhItemId.value, m.branchId)
        else table;
      RebuildBranchSkus(ops, db, projectId, cdhId, [m], table) ==
        if !MapsItemSku(m) then Success(Rebuilt(mapped, []))
        else match RowFor(db.itemSkus, cdhId, m)
          case None => Failure(AttributeError("sku_id"))
          case Some(row) => Success(Rebuilt(mapped + [row], [row]))
  {
    assert [m][1..] == [];
    if MapsItemSku(m) && ItemSkuOf(db.itemSkus, m).Some? {
      var row := RowFor(db.itemSkus, cdhId, m).value;
      assert [row] + [] == [row];
    }
  }

  /** Continuing a loop outcome with the members `b`: a fault stays, and
      otherwise `b` runs on the table reached, its rows added after the
      earlier ones. */
  function ThenRebuild(ops: ProjectOps, db: Db, projectId: int, cdhId: Option<int>,
                       first: Result<Rebuilt, Fault>, b: seq<CdhItemMember>): Result<Rebuilt, Fault>
  {
    match first
    case Failure(e) => Failure(e)
    case Success(f) =>
      match RebuildBranchSkus(ops, db, projectId, cdhId, b, f.table)
      case Failure(e) => Failure(e)
      case Success(g) => Success(Rebuilt(g.table, f.added + g.added))
  }

  /** The loop over `[m] + rest` is `m`'s step followed by the loop over `rest`. */
  lemma RebuildCons(ops: ProjectOps, db: Db, projectId: int, cdhId: Option<int>,
                    m: CdhItemMember, rest: seq<CdhItemMember>, table: seq<BranchSku>)
    ensures RebuildBranchSkus(ops, db, projectId, cdhId, [m] + rest, table) ==
      ThenRebuild(ops, db, projectId, cdhId, RebuildBranchSkus(ops, db, projectId, cdhId, [m], table), rest)
  {
    assert ([m] + rest)[0] == m && ([m] + rest)[1..] == rest;
    assert [m][1..] == [];
    var mapped := if MapsItem(m)
      then ops.mapSkusToBranches(db.(branchSkus := table), projectId, m.cdhItemId.value, m.branchId)
      else table;
    if !MapsItemSku(m) {
      match RebuildBranchSkus(ops, db, projectId, cdhId, rest, mapped)
      case Failure(e) =>
      case Success(g) =>
        assert [] + g.added == g.added;
    } else if ItemSkuOf(db.itemSkus, m).Some? {
      var row := BranchSku(m.branchId, cdhId, ItemSkuOf(db.itemSkus, m).value.skuId);
      assert [row] + [] == [row];
    }
  }

  /** The loop over `a + b` is the loop over `a`, then the loop over `b` on
      the table `a` left; the added rows are concatenated and the first
      fault stops everything. */
  lemma {:induction false} RebuildAppend(ops: ProjectOps, db: Db, projectId: int, cdhId: Option<int>,
                                         a: seq<CdhItemMember>, b: seq<CdhItemMember>, table: seq<BranchSku>)
    ensures RebuildBranchSkus(ops, db, projectId, cdhId, a + b, table) ==
      ThenRebuild(ops, db, projectId, cdhId, RebuildBranchSkus(ops, db, projectId, cdhId, a, table), b)
    decreases |a|
  {
    if |a| == 0 {
      assert a + b == b;
      match RebuildBranchSkus(ops, db, projectId, cdhId, b, table)
      case Failure(e) =>
      case Success(g) =>
        assert [] + g.added == g.added;
    } else {
      var m, tail := a[0], a[1..];
      assert a == [m] + tail;
      assert a + b == [m] + (tail + b);
      RebuildCons(ops, db, projectId, cdhId, m, tail + b, table);
      RebuildCons(ops, db, projectId, cdhId, m, tail, table);
      match RebuildBranchSkus(ops, db, projectId, cdhId, [m], table)
      case Failure(e) =>
      case Success(f) =>
        RebuildAppend(ops, db, projectId, cdhId, tail, b, f.table);
        match RebuildBranchSkus(ops, db, projectId, cdhId, tail, f.table)
        case Failure(e) =>
        case Success(g) =>
          match RebuildBranchSkus(ops, db, projectId, cdhId, b, g.table)
          case Failure(e) =>
          case Success(h) =>
            assert f.added + (g.added + h.added) == (f.added + g.added) + h.added;
    }
  }

  /** When the mapping calls only add rows, the member loop keeps the table it
      starts from as a prefix, and every row it adds itself is in the table it
      leaves, on top of the rows that were there before. */
  lemma {:induction false} RebuildKeepsTable(ops: ProjectOps, db: Db, projectId: int, cdhId: Option<int>,
                                             members: seq<CdhItemMember>, table: seq<BranchSku>)
    requires MapAppends(ops, projectId)
    requires RebuildBranchSkus(ops, db, projectId, cdhId, members, table).Success?
    ensures var rebuilt := RebuildBranchSkus(ops, db, projectId, cdhId, members, table).value;
      && table <= rebuilt.table
      && multiset(table) + multiset(rebuilt.added) <= multiset(rebuilt.table)
    decreases |members|
  {
    if |members| > 0 {
      var m := members[0];
      var mapped := if MapsItem(m)
        then ops.mapSkusToBranches(db.(branchSkus := table), projectId, m.cdhItemId.value, m.branchId)
        else table;
      assert table <= mapped;
      PrefixMultiset(table, mapped);
      if MapsItemSku(m) {
        var row := BranchSku(m.branchId, cdhId, ItemSkuOf(db.itemSkus, m).value.skuId);
        RebuildKeepsTable(ops, db, projectId, cdhId, members[1..], mapped + [row]);
      } else {
        RebuildKeepsTable(ops, db, projectId, cdhId, members[1..], mapped);
      }
    }
  }

  /** The members recorded for a project. */
  function ProjectMembers(db: Db, projectId: int): seq<CdhItemMember>
  {
    Filter((m: CdhItemMember) => m.projectId == projectId, db.members)
  }

  /** Deleting the project's branch SKUs, then running the member loop on
      what remains; the result is the flushed working state. */
  function StageBranchSkus(ops: ProjectOps, db: Db, p: Project): (r: Result<Db, Fault>)
    ensures r.Failure? <==> exists m :: m in ProjectMembers(db, p.id) && Dangling(db.itemSkus, m)
    ensures r.Success? ==> r.value == db.(branchSkus := r.value.branchSkus)
    ensures r.Success? ==>
      var kept := ops.deleteBranchSkus(db, p.id);
      var loop := RebuildBranchSkus(ops, db.(branchSkus := kept), p.id, p.cdhId, ProjectMembers(db, p.id), kept);
      loop.Success? && r.value.branchSkus == loop.value.table
    ensures r.Success? && (forall m :: m in ProjectMembers(db, p.id) ==> !MapsItem(m)) ==>
      var rows := DirectRows(db.itemSkus, p.cdhId, ProjectMembers(db, p.id));
      rows.Some? && r.value.branchSkus == ops.deleteBranchSkus(db, p.id) + rows.value
  {
    var cleared := db.(branchSkus := ops.deleteBranchSkus(db, p.id));
    // Deleting branch SKUs leaves the member table as it was.
    var members := ProjectMembers(db, p.id);
    DirectRowsExist(db.itemSkus, p.cdhId, members);
    match RebuildBranchSkus(ops, cleared, p.id, p.cdhId, members, cleared.branchSkus)
    case Failure(e) => Failure(e)
    case Success(rebuilt) => Success(cleared.(branchSkus := rebuilt.table))
  }

  /** When the mapping calls only add rows, the staged BranchSku table starts
      with what deleting the project's rows left, and holds every direct row
      on top of those. */
  lemma StagedTableHoldsDirectRows(ops: ProjectOps, db: Db, p: Project)
    requires MapAppends(ops, p.id)
    requires StageBranchSkus(ops, db, p).Success?
    ensures var kept := ops.deleteBranchSkus(db, p.id);
      var staged := StageBranchSkus(ops, db, p).value.branchSkus;
      var rows := DirectRows(db.itemSkus, p.cdhId, ProjectMembers(db, p.id));
      && rows.Some?
      && kept <= staged
      && multiset(kept) + multiset(rows.value) <= multiset(staged)
      && forall k :: 0 <= k < |rows.value| ==> rows.value[k] in staged
  {
    var cleared := db.(branchSkus := ops.deleteBranchSkus(db, p.id));
    var members := ProjectMembers(db, p.id);
    var res := RebuildBranchSkus(ops, cleared, p.id, p.cdhId, members, cleared.branchSkus);
    assert StageBranchSkus(ops, db, p) == Success(cleared.(branchSkus := res.value.table));
    RebuildKeepsTable(ops, cleared, p.id, p.cdhId, members, cleared.branchSkus);
    SubMultisetElements(res.value.added, res.value.table);
  }

  /** The project at position `i` gets its branch-builder view state copied
      into its cann-boundary view state. */
  function CopyViewstate(db: Db, i: nat): (r: Db)
    requires i < |db.projects|
    ensures |r.projects| == |db.projects|
    ensures r.projects[i].viewstateForCannBoundaryBuilder == db.projects[i].viewstateForBranchBuilder
    ensures r.projects[i] == db.projects[i].(viewstateForCannBoundaryBuilder := r.projects[i].viewstateForCannBoundaryBuilder)
    ensures forall j :: 0 <= j < |db.projects| && j != i ==> r.projects[j] == db.projects[j]
    ensures r == db.(projects := r.projects)
  {
    var p := db.projects[i];
    db.(projects := db.projects[i := p.(viewstateForCannBoundaryBuilder := p.viewstateForBranchBuilder)])
  }

  /** The `build_branches` branch for the project at position `i`. When every
      CDH item is mapped, the staged rows are committed and the follow-up
      steps run and are committed; otherwise the whole rebuild is rolled back. */
  function CompleteBuildBranches(ops: ProjectOps, db: Db, i: nat): (r: Result<Completion, Fault>)
    requires i < |db.projects|
    ensures r.Failure? <==> StageBranchSkus(ops, db, db.projects[i]).Failure?
    ensures r.Success? ==> r.value.response.status == 200 || r.value.response.status == 400
    ensures r.Success? && r.value.response.status == 200 ==> r.value.response == Completed()
    ensures r.Success? ==> var staged := StageBranchSkus(ops, db, db.projects[i]).value;
      (r.value.response.status == 200 <==> ops.hasMappedAllCdhItems(staged, db.projects[i].id))
    ensures r.Success? && r.value.response.status == 400 ==>
      r.value.db == db && r.value.response == MessageResponse(400, UnmappedItemsMessage)
    ensures r.Success? && r.value.response.status == 200 ==>
      var staged := StageBranchSkus(ops, db, db.projects[i]).value;
      var pid := db.projects[i].id;
      r.value.db == ops.completeTask(
        ops.assignRecommendedClassificationAndSales(
          ops.copyBranchesToCannBoundaries(CopyViewstate(staged, i), pid), pid), pid, BuildBranches)
  {
    var p := db.projects[i];
    var session := Begin(db);
    match StageBranchSkus(ops, session.working, p)
    case Failure(e) => Failure(e)
    case Success(staged) =>
      var session := session.(working := staged);
      if ops.hasMappedAllCdhItems(session.working, p.id) then
        var session := session.Commit();
        var w := CopyViewstate(session.working, i);
        var w := ops.copyBranchesToCannBoundaries(w, p.id);
        var w := ops.assignRecommendedClassificationAndSales(w, p.id);
        var w := ops.completeTask(w, p.id, BuildBranches);
        var session := session.(working := w).Commit();
        Success(Completion(Completed(), session.committed))
      else
        var session := session.Rollback();
        Success(Completion(MessageResponse(400, UnmappedItemsMessage), session.committed))
  }

  /** `set_task_complete`: a three-way dispatch on the task name. */
  function SetTaskComplete(ops: ProjectOps, db: Db, projectId: int, taskName: string): (r: Result<Completion, Fault>)
    ensures r.Success? ==> r.value.response.status == 200 || r.value.response.status == 400
    ensures r.Success? && r.value.response.status != 200 ==> r.value.db == db
    ensures taskName != BuildBranches && taskName != CannBoundaries && taskName != StrategicGuidance ==>
      r == Success(Completion(MessageResponse(400, InvalidTaskNameMessage), db))
    ensures taskName == BuildBranches || taskName == CannBoundaries || taskName == StrategicGuidance ==>
      (FindFirst((p: Project) => p.id == projectId, db.projects).None? ==> r.Failure?)
    ensures taskName == BuildBranches ==> match FindFirst((p: Project) => p.id == projectId, db.projects)
      case None => r == Failure(AttributeError("delete_branch_skus"))
      case Some(i) => r == CompleteBuildBranches(ops, db, i)
    ensures (taskName == CannBoundaries || taskName == StrategicGuidance) ==>
      var found := FindFirst((p: Project) => p.id == projectId, db.projects);
      var task := First((t: Task) => t.name == taskName, db.tasks);
      found.Some? && task.Some? ==>
        && r.Success?
        && (r.value.response.status == 200 <==> db.projects[found.value].currentTaskId == Some(task.value.id))
        && (r.value.response.status == 200 ==>
              r.value == Completion(Completed(), ops.completeTask(db, projectId, taskName)))
        && (r.value.response.status == 400 ==>
              r.value.response == MessageResponse(400, NotCurrentTaskMessage(taskName)))
    ensures (taskName == CannBoundaries || taskName == StrategicGuidance) ==>
      var found := FindFirst((p: Project) => p.id == projectId, db.projects);
      var task := First((t: Task) => t.name == taskName, db.tasks);
      && (found.None? ==> r == Failure(AttributeError("current_task_id")))
      && (found.Some? && task.None? ==> r == Failure(AttributeError("id")))
  {
    var found := FindFirst((p: Project) => p.id == projectId, db.projects);
    if taskName == BuildBranches then
      match found
      case None => Failure(AttributeError("delete_branch_skus"))
      case Some(i) => CompleteBuildBranches(ops, db, i)
    else if taskName == CannBoundaries || taskName == StrategicGuidance then
      var task := First((t: Task) => t.name == taskName, db.tasks);
      match found
      case None => Failure(AttributeError("current_task_id"))
      case Some(i) =>
        match task
        case None => Failure(AttributeError("id"))
        case Some(t) =>
          if db.projects[i].currentTaskId == Some(t.id) then
            var session := Begin(db);
            var session := session.(working := ops.completeTask(session.working, projectId, taskName)).Commit();
            Success(Completion(Completed(), session.committed))
          else
            Success(Completion(MessageResponse(400, NotCurrentTaskMessage(taskName)), db))
    else
      Success(Completion(MessageResponse(400, InvalidTaskNameMessage), db))
  }

  /** Every refusal `set_task_complete` builds by hand is the answer
      `bad_request` gives for the same message. */
  lemma SetTaskCompleteRefusalIsBadRequest(ops: ProjectOps, db: Db, projectId: int, taskName: string)
    requires SetTaskComplete(ops, db, projectId, taskName).Success?
    requires SetTaskComplete(ops, db, projectId, taskName).value.response.status != 200
    ensures var resp := SetTaskComplete(ops, db, projectId, taskName).value.response;
      && BodyField(resp, "message").Some?
      && resp == BadRequest(BodyField(resp, "message"))
  {
  }
}
