/** `update_decision` (pythonsrc/api/main.py): a partial update of one ranging
    decision of a project. */
module Decisions {
  import opened Wrappers
  import opened Seqs
  import opened ApiUtil
  import opened Records

  /** The three optional fields of the request body. The bay may be given as
      an explicit null (`Given(None)`), which is not the same as omitting it. */
  datatype DecisionPatch = DecisionPatch(
    assignedStartingBayId: Arg<Option<int>>,
    comment: Arg<string>,
    isActiveChoice: Arg<bool>)

  /** The answer: the updated decision (dumped by its schema) or the 404
      response, together with the committed state. */
  datatype Patched = Patched(reply: Result<Decision, Response>, db: Db)

  /** The position of the first decision with this id in this project. */
  function FindDecision(db: Db, projectId: int, decisionId: int): Option<nat>
  {
    FindFirst((d: Decision) => d.id == decisionId && d.projectId == projectId, db.decisions)
  }

  /** Overwrites exactly the supplied fields. */
  function ApplyPatch(d: Decision, patch: DecisionPatch): (e: Decision)
    ensures patch.assignedStartingBayId.Given? ==> e.assignedStartingBayId == patch.assignedStartingBayId.value
    ensures patch.assignedStartingBayId.Missing? ==> e.assignedStartingBayId == d.assignedStartingBayId
    ensures patch.comment.Given? ==> e.comment == Some(patch.comment.value)
    ensures patch.comment.Missing? ==> e.comment == d.comment
    ensures patch.isActiveChoice.Given? ==> e.isActiveChoice == patch.isActiveChoice.value
    ensures patch.isActiveChoice.Missing? ==> e.isActiveChoice == d.isActiveChoice
    ensures e.id == d.id && e.projectId == d.projectId && e.clusterId == d.clusterId
    ensures e.branchSkuId == d.branchSkuId && e.recommendedStartingBayId == d.recommendedStartingBayId
  {
    var d := if patch.assignedStartingBayId.Given?
      then d.(assignedStartingBayId := patch.assignedStartingBayId.value) else d;
    var d := if patch.comment.Given? then d.(comment := Some(patch.comment.value)) else d;
    if patch.isActiveChoice.Given? then d.(isActiveChoice := patch.isActiveChoice.value) else d
  }

  /** `update_decision`: 404 and no change when the project has no decision
      with that id; otherwise only that decision changes, and only in the
      supplied fields, and the change is committed. */
  function UpdateDecision(db: Db, projectId: int, decisionId: int, patch: DecisionPatch): (r: Patched)
    ensures r.reply.Failure? <==>
      forall j :: 0 <= j < |db.decisions| ==> !(db.decisions[j].id == decisionId && db.decisions[j].projectId == projectId)
    ensures r.reply.Failure? ==> r.reply.error == NotFound() && r.db == db
    ensures r.reply.Success? ==>
      && r.db == db.(decisions := r.db.decisions)
      && |r.db.decisions| == |db.decisions|
      && r.reply.value.id == decisionId && r.reply.value.projectId == projectId
      && exists i :: 0 <= i < |db.decisions|
           && db.decisions[i].id == decisionId && db.decisions[i].projectId == projectId
           && r.db.decisions[i] == r.reply.value == ApplyPatch(db.decisions[i], patch)
           && forall j :: 0 <= j < |db.decisions| && j != i ==> r.db.decisions[j] == db.decisions[j]
  {
    match FindDecision(db, projectId, decisionId)
    case None => Patched(Failure(NotFound()), db)
    case Some(i) =>
      var updated := ApplyPatch(db.decisions[i], patch);
      Patched(Success(updated), db.(decisions := db.decisions[i := updated]))
  }

  /** A patch with nothing supplied leaves the decision as it was. */
  lemma EmptyPatchChangesNothing(db: Db, projectId: int, decisionId: int)
    ensures UpdateDecision(db, projectId, decisionId, DecisionPatch(Missing, Missing, Missing)).db == db
  {
    match FindDecision(db, projectId, decisionId)
    case None =>
    case Some(i) =>
      assert db.decisions[i := db.decisions[i]] == db.decisions;
  }

  /** Sending the same patch twice leaves the same state as sending it once. */
  lemma UpdateDecisionIdempotent(db: Db, projectId: int, decisionId: int, patch: DecisionPatch)
    ensures var once := UpdateDecision(db, projectId, decisionId, patch);
      UpdateDecision(once.db, projectId, decisionId, patch) == once
  {
    match FindDecision(db, projectId, decisionId)
    case None =>
    case Some(i) =>
      var once := UpdateDecision(db, projectId, decisionId, patch);
      assert FindDecision(once.db, projectId, decisionId) == Some(i);
      assert ApplyPatch(ApplyPatch(db.decisions[i], patch), patch) == ApplyPatch(db.decisions[i], patch);
      assert once.db.decisions[i := ApplyPatch(db.decisions[i], patch)] == once.db.decisions;
  }
}
