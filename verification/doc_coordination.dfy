// Closing every document of a workspace at once, after saving the ones that were chosen to be saved.
module DocCoordination {
  import opened Basics
  import opened DocTypes
  import opened DocLaws
  import opened DocClose
  import opened DocWorkspace

  datatype CloseChoice = Save | Discard | Cancel
  datatype CloseDecision = CloseDecision(document: nat, choice: CloseChoice)

  datatype CloseStatus =
    | Ready | Closed | IncompleteDecisions | Cancelled | BadArgument | StaleWorkspace | SaveFailed | CallbackFailure
    | CommitFailure

  datatype ClosePlan = ClosePlan(
    status: CloseStatus, revision: nat, saveBeforeClose: seq<nat>, closeDocuments: seq<nat>)

  datatype CloseResult = CloseResult(status: CloseStatus, failed: Option<nat>)

  // ---- planning ----

  // A decision is about an open dirty document, and no later one is about the same document.
  predicate DecisionOk(w: Workspace, decisions: seq<CloseDecision>, i: nat)
    requires i < |decisions|
  {
    var found := FindIndex(w, decisions[i].document);
    && found.Some? && w.documents[found.value].dirty
    && forall j :: i < j < |decisions| ==> decisions[j].document != decisions[i].document
  }

  predicate DecisionsOk(w: Workspace, decisions: seq<CloseDecision>) {
    forall i :: 0 <= i < |decisions| ==> DecisionOk(w, decisions, i)
  }

  function ChoiceFor(decisions: seq<CloseDecision>, id: nat): (r: Option<CloseChoice>)
    ensures r.Some? ==> CloseDecision(id, r.value) in decisions
    ensures r.None? <==> forall d :: d in decisions ==> d.document != id
  {
    if decisions == [] then None
    else if decisions[0].document == id then Some(decisions[0].choice)
    else ChoiceFor(decisions[1..], id)
  }

  predicate Blocks(d: WorkspaceDocument, decisions: seq<CloseDecision>) {
    d.dirty && ChoiceFor(decisions, d.id) in {None, Some(Cancel)}
  }

  // The dirty documents chosen to be saved, in the order they are open.
  function Chosen(documents: seq<WorkspaceDocument>, decisions: seq<CloseDecision>): seq<nat> {
    if documents == [] then []
    else
      var n := |documents| - 1;
      Chosen(documents[..n], decisions) +
      (if documents[n].dirty && ChoiceFor(decisions, documents[n].id) == Some(Save) then [documents[n].id] else [])
  }

  ghost predicate IsPlanFor(w: Workspace, decisions: seq<CloseDecision>, plan: ClosePlan) {
    && plan.revision == w.revision
    && (!DecisionsOk(w, decisions) ==> plan == ClosePlan(BadArgument, w.revision, [], []))
    && (DecisionsOk(w, decisions) && (forall d :: d in w.documents ==> !Blocks(d, decisions)) ==>
          plan == ClosePlan(Ready, w.revision, Chosen(w.documents, decisions), Ids(w.documents)))
    && (DecisionsOk(w, decisions) && (exists d :: d in w.documents && Blocks(d, decisions)) ==>
          exists i :: 0 <= i < |w.documents| && FirstBlock(w.documents, decisions, i) && plan ==
            ClosePlan(if ChoiceFor(decisions, w.documents[i].id).None? then IncompleteDecisions else Cancelled,
                      w.revision, Chosen(w.documents[..i], decisions), Ids(w.documents[..i + 1])))
  }

  ghost predicate FirstBlock(documents: seq<WorkspaceDocument>, decisions: seq<CloseDecision>, i: nat)
    requires i < |documents|
  {
    Blocks(documents[i], decisions) && forall k :: 0 <= k < i ==> !Blocks(documents[k], decisions)
  }

  method CheckDecision(w: Workspace, decisions: seq<CloseDecision>, i: nat) returns (ok: bool)
    requires i < |decisions|
    ensures ok == DecisionOk(w, decisions, i)
  {
    var found := FindIndex(w, decisions[i].document);
    if found.None? || !w.documents[found.value].dirty { return false; }
    for other := i + 1 to |decisions|
      invariant forall j :: i < j < other ==> decisions[j].document != decisions[i].document
    {
      if decisions[other].document == decisions[i].document { return false; }
    }
    ok := true;
  }

  method BuildCoordinatedClosePlan(w: Workspace, decisions: seq<CloseDecision>) returns (plan: ClosePlan)
    ensures IsPlanFor(w, decisions, plan)
  {
    plan := ClosePlan(BadArgument, w.revision, [], []);
    for i := 0 to |decisions|
      invariant forall k :: 0 <= k < i ==> DecisionOk(w, decisions, k)
    {
      var ok := CheckDecision(w, decisions, i);
      if !ok { return; }
    }
    hide DecisionsOk, ChoiceFor, Ids, Chosen;
    assert DecisionsOk(w, decisions) by { AllDecisionsOk(w, decisions); }
    ChosenNone(w.documents, decisions);
    for i := 0 to |w.documents|
      invariant plan == ClosePlan(BadArgument, w.revision, Chosen(w.documents[..i], decisions), Ids(w.documents[..i]))
      invariant forall k :: 0 <= k < i ==> !Blocks(w.documents[k], decisions)
    {
      var d := w.documents[i];
      ChosenNext(w.documents, decisions, i);
      plan := plan.(closeDocuments := plan.closeDocuments + [d.id]);
      if d.dirty {
        var choice := ChoiceFor(decisions, d.id);
        if choice.None? || choice.value == Cancel {
          assert d in w.documents && Blocks(d, decisions) && FirstBlock(w.documents, decisions, i);
          plan := plan.(status := if choice.None? then IncompleteDecisions else Cancelled);
          return;
        }
        if choice.value == Save { plan := plan.(saveBeforeClose := plan.saveBeforeClose + [d.id]); }
      }
    }
    assert w.documents[..|w.documents|] == w.documents;
    plan := plan.(status := Ready);
  }

  lemma AllDecisionsOk(w: Workspace, decisions: seq<CloseDecision>)
    requires forall k :: 0 <= k < |decisions| ==> DecisionOk(w, decisions, k)
    ensures DecisionsOk(w, decisions)
  {}

  lemma ChosenNone(documents: seq<WorkspaceDocument>, decisions: seq<CloseDecision>)
    ensures Chosen(documents[..0], decisions) == [] && Ids(documents[..0]) == []
  {}

  lemma ChosenNext(documents: seq<WorkspaceDocument>, decisions: seq<CloseDecision>, i: nat)
    requires i < |documents|
    ensures Ids(documents[..i + 1]) == Ids(documents[..i]) + [documents[i].id]
    ensures Chosen(documents[..i + 1], decisions) == Chosen(documents[..i], decisions) +
              (if documents[i].dirty && ChoiceFor(decisions, documents[i].id) == Some(Save) then [documents[i].id] else [])
  {
    assert documents[..i + 1][..i] == documents[..i];
  }

  // A plan that is ready saves exactly what was chosen to be saved, each document once.
  lemma ChosenOnce(w: Workspace, decisions: seq<CloseDecision>)
    requires Consistent(w) && DecisionsOk(w, decisions)
    ensures NoDuplicates(Chosen(w.documents, decisions))
    ensures forall id :: id in Chosen(w.documents, decisions) <==> CloseDecision(id, Save) in decisions
  {
    hide DistinctDocuments, Chosen, Ids;
    DistinctIds(w);
    ChosenAmong(w.documents, decisions);
    forall id | CloseDecision(id, Save) in decisions ensures id in Chosen(w.documents, decisions) {
      var i :| 0 <= i < |decisions| && decisions[i] == CloseDecision(id, Save);
      assert DecisionOk(w, decisions, i);
      var k := FindIndex(w, id).value;
      OnlyDecision(w, decisions, i);
      ChosenHas(w.documents, decisions, k);
    }
  }

  lemma DistinctIds(w: Workspace)
    requires Consistent(w)
    ensures NoDuplicates(Ids(w.documents))
  {}

  lemma OnlyDecision(w: Workspace, decisions: seq<CloseDecision>, i: nat)
    requires DecisionsOk(w, decisions) && i < |decisions|
    ensures ChoiceFor(decisions, decisions[i].document) == Some(decisions[i].choice)
  {
    var d := decisions[i];
    var r := ChoiceFor(decisions, d.document);
    assert d in decisions;
    var j :| 0 <= j < |decisions| && decisions[j] == CloseDecision(d.document, r.value);
    assert DecisionOk(w, decisions, i) && DecisionOk(w, decisions, j);
  }

  lemma {:induction false} ChosenAmong(documents: seq<WorkspaceDocument>, decisions: seq<CloseDecision>)
    requires NoDuplicates(Ids(documents))
    ensures NoDuplicates(Chosen(documents, decisions))
    ensures forall id :: id in Chosen(documents, decisions) ==> id in Ids(documents) && ChoiceFor(decisions, id) == Some(Save)
  {
    if documents == [] {
    } else {
      var n := |documents| - 1;
      var init := documents[..n];
      assert Ids(documents) == Ids(init) + [documents[n].id];
      assert NoDuplicates(Ids(init)) by {
        forall i, j | 0 <= i < j < n ensures Ids(init)[i] != Ids(init)[j] {
          assert Ids(documents)[i] != Ids(documents)[j];
        }
      }
      ChosenAmong(init, decisions);
      assert documents[n].id !in Ids(init) by {
        forall i | 0 <= i < n ensures Ids(init)[i] != documents[n].id { assert Ids(documents)[i] != Ids(documents)[n]; }
      }
    }
  }

  lemma {:induction false} ChosenHas(documents: seq<WorkspaceDocument>, decisions: seq<CloseDecision>, k: nat)
    requires k < |documents| && documents[k].dirty && ChoiceFor(decisions, documents[k].id) == Some(Save)
    ensures documents[k].id in Chosen(documents, decisions)
  {
    if k < |documents| - 1 {
      ChosenHas(documents[..|documents| - 1], decisions, k);
    }
  }

  // ---- executing ----

  datatype SaveReply = Saved | Refused | Threw

  // What one call of the save handler does: any operations on the workspace, then an answer.
  datatype SaveCall = SaveCall(ops: seq<WorkspaceOp>, reply: SaveReply)

  // The handler's behaviour at its first, second, ... call.
  type SaveHandler = nat -> SaveCall

  // The saves that were started, the result, and the workspace that is left.
  datatype Execution = Execution(saved: seq<nat>, result: CloseResult, workspace: Workspace)

  function CommitAfterSaves(w: Workspace, plan: ClosePlan): (CloseStatus, Workspace) {
    if plan.status != Ready then (BadArgument, w)
    else if w.revision != plan.revision then (StaleWorkspace, w)
    else if plan.closeDocuments == [] then (Closed, w)
    else
      var closed := CloseMany(w, plan.closeDocuments);
      (if closed.status == Success then Closed else CommitFailure, closed.workspace)
  }

  function SaveFrom(w: Workspace, plan: ClosePlan, save: SaveHandler, k: nat): Execution
    requires k <= |plan.saveBeforeClose|
    decreases |plan.saveBeforeClose| - k
  {
    var saved := plan.saveBeforeClose[..k];
    if k == |plan.saveBeforeClose| then
      var (status, v) := CommitAfterSaves(w, plan);
      Execution(saved, CloseResult(status, None), v)
    else
      var id := plan.saveBeforeClose[k];
      var v := Run(w, save(k).ops);
      if save(k).reply != Saved then
        Execution(saved + [id], CloseResult(if save(k).reply == Refused then SaveFailed else CallbackFailure, Some(id)), v)
      else if v.revision != plan.revision then Execution(saved + [id], CloseResult(StaleWorkspace, Some(id)), v)
      else SaveFrom(v, plan, save, k + 1)
  }

  function ExecuteClose(w: Workspace, plan: ClosePlan, save: Option<SaveHandler>): Execution {
    if plan.status != Ready then Execution([], CloseResult(BadArgument, None), w)
    else if w.revision != plan.revision then Execution([], CloseResult(StaleWorkspace, None), w)
    else if plan.closeDocuments == [] then Execution([], CloseResult(Closed, None), w)
    else if plan.saveBeforeClose != [] && save.None? then
      Execution([], CloseResult(BadArgument, Some(plan.saveBeforeClose[0])), w)
    else if save.None? then
      var (status, v) := CommitAfterSaves(w, plan);
      Execution([], CloseResult(status, None), v)
    else SaveFrom(w, plan, save.value, 0)
  }

  // Every operation that calls k to n - 1 of the handler make.
  function OpsOf(save: SaveHandler, k: nat, n: nat): seq<WorkspaceOp>
    decreases n - k
  {
    if k >= n then [] else save(k).ops + OpsOf(save, k + 1, n)
  }

  method CommitCoordinatedCloseAfterSaves(workspace: DocumentWorkspaceModel, plan: ClosePlan) returns (status: CloseStatus)
    requires workspace.Valid()
    modifies workspace
    ensures workspace.Valid() && (status, workspace.Now()) == CommitAfterSaves(old(workspace.Now()), plan)
  {
    hide Consistent, DocTypes.CloseMany, Closable;
    if plan.status != Ready { return BadArgument; }
    if workspace.revision != plan.revision { return StaleWorkspace; }
    if plan.closeDocuments == [] { return Closed; }
    var closed := workspace.CloseMany(plan.closeDocuments);
    if closed.status != Success { return CommitFailure; }
    status := Closed;
  }

  method ExecuteCoordinatedClose(workspace: DocumentWorkspaceModel, plan: ClosePlan, save: Option<SaveHandler>)
    returns (result: CloseResult, saved: seq<nat>)
    requires workspace.Valid()
    modifies workspace
    ensures workspace.Valid()
    ensures Execution(saved, result, workspace.Now()) == ExecuteClose(old(workspace.Now()), plan, save)
  {
    hide Consistent, CommitAfterSaves, Run;
    saved := [];
    if plan.status != Ready { return CloseResult(BadArgument, None), saved; }
    if workspace.revision != plan.revision { return CloseResult(StaleWorkspace, None), saved; }
    if plan.closeDocuments == [] { return CloseResult(Closed, None), saved; }
    if plan.saveBeforeClose != [] && save.None? { return CloseResult(BadArgument, Some(plan.saveBeforeClose[0])), saved; }
    ghost var w := workspace.Now();
    for k := 0 to |plan.saveBeforeClose|
      invariant workspace.Valid() && saved == plan.saveBeforeClose[..k]
      invariant save.None? ==> workspace.Now() == w
      invariant save.Some? ==> SaveFrom(w, plan, save.value, 0) == SaveFrom(workspace.Now(), plan, save.value, k)
    {
      var id := plan.saveBeforeClose[k];
      saved := saved + [id];
      Perform(workspace, save.value(k).ops);
      match save.value(k).reply
      case Refused => return CloseResult(SaveFailed, Some(id)), saved;
      case Threw => return CloseResult(CallbackFailure, Some(id)), saved;
      case Saved =>
      if workspace.revision != plan.revision { return CloseResult(StaleWorkspace, Some(id)), saved; }
    }
    var status := CommitCoordinatedCloseAfterSaves(workspace, plan);
    result := CloseResult(status, None);
  }

  // ---- all or nothing ----

  // Closing everything that is open cannot fail.
  lemma CloseAllSucceeds(w: Workspace)
    requires Consistent(w) && w.documents != []
    ensures CloseMany(w, Ids(w.documents)) == Reply(Success, w.(documents := [], active := None, revision := w.revision + 1))
  {
    hide Survivors, NextActive, DistinctDocuments, CheckClosing;
    var ids := Ids(w.documents);
    assert ids != [];
    AllOpen(w);
    CloseManySucceeds(w, ids);
    CloseManyKeeps(w, ids);
    assert Survivors(w.documents, ids) == [] by {
      forall d | d in w.documents ensures d.id in ids { IdsAt(w.documents, d); }
      NoneSurvive(w.documents, ids);
    }
  }

  lemma AllOpen(w: Workspace)
    requires Consistent(w) && w.documents != []
    ensures Closable(w, Ids(w.documents))
  {
    var ids := Ids(w.documents);
    forall id | id in ids ensures id != 0 && Holds(w, id) {
      var i :| 0 <= i < |ids| && ids[i] == id;
      assert w.documents[i] in w.documents;
    }
  }

  lemma {:induction false} NoneSurvive(documents: seq<WorkspaceDocument>, closing: seq<nat>)
    requires forall d :: d in documents ==> d.id in closing
    ensures Survivors(documents, closing) == []
  {
    if documents == [] {
    } else {
      assert documents[0] in documents;
      NoneSurvive(documents[1..], closing);
    }
  }

  // The workspace as it was planned, but for a history that may have been cleared since.
  predicate StillAsPlanned(w0: Workspace, w: Workspace) {
    w == w0 || w == ClearRecentlyClosed(w0)
  }

  lemma CommitCloses(w0: Workspace, w: Workspace, decisions: seq<CloseDecision>, plan: ClosePlan)
    requires Consistent(w0) && IsPlanFor(w0, decisions, plan) && plan.status == Ready
    requires StillAsPlanned(w0, w)
    ensures plan.closeDocuments == Ids(w0.documents)
    ensures plan.saveBeforeClose == Chosen(w0.documents, decisions)
    ensures CommitAfterSaves(w, plan) ==
            (Closed, w.(documents := [], active := None, revision := w.revision + if w0.documents == [] then 0 else 1))
  {
    hide CloseMany, Chosen, DecisionsOk, FirstBlock;
    if w0.documents != [] {
      ClearKeeps(w0);
      CloseAllSucceeds(w);
    }
  }

  // The workspace with every document closed by one further change, or untouched when nothing was open.
  function AllClosed(w: Workspace): Workspace {
    w.(documents := [], active := None, revision := w.revision + if w.documents == [] then 0 else 1)
  }

  // Whatever the handler does, the closing itself either closes everything or changes nothing: what is left is what the
  // handler's own operations made of the workspace.
  ghost predicate AllOrNothing(w: Workspace, made: seq<WorkspaceOp>, r: Execution) {
    r.workspace == if r.result.status == Closed then AllClosed(Run(w, made)) else Run(w, made)
  }

  lemma {:induction false} SavesAllOrNothing(w0: Workspace, decisions: seq<CloseDecision>, plan: ClosePlan,
                                             w: Workspace, save: SaveHandler, k: nat)
    requires Consistent(w0) && IsPlanFor(w0, decisions, plan) && plan.status == Ready
    requires StillAsPlanned(w0, w) && k <= |plan.saveBeforeClose|
    ensures var r := SaveFrom(w, plan, save, k);
            var n := |r.saved|;
            && k <= n <= |plan.saveBeforeClose| && r.saved == plan.saveBeforeClose[..n]
            && AllOrNothing(w, OpsOf(save, k, n), r)
            && r.result.status in {Closed, SaveFailed, CallbackFailure, StaleWorkspace}
            && (r.result.status == Closed ==> n == |plan.saveBeforeClose|)
            && (r.result.status == Closed <==>
                  && (forall i :: k <= i < |plan.saveBeforeClose| ==> save(i).reply == Saved)
                  && Run(w, OpsOf(save, k, |plan.saveBeforeClose|)).revision == plan.revision)
    decreases |plan.saveBeforeClose| - k
  {
    hide IsPlanFor, Consistent, CommitAfterSaves, Run;
    var m := |plan.saveBeforeClose|;
    PlanRevision(w0, decisions, plan);
    if k == m {
      CommitCloses(w0, w, decisions, plan);
      RunNothing(w);
    } else {
      var v := Run(w, save(k).ops);
      EqualRevisionEqualState(w, save(k).ops);
      if save(k).reply == Saved {
        RunConcat(w, save(k).ops, OpsOf(save, k + 1, m));
        EqualRevisionEqualState(v, OpsOf(save, k + 1, m));
        if v.revision == plan.revision {
          SavesAllOrNothing(w0, decisions, plan, v, save, k + 1);
          RunConcat(w, save(k).ops, OpsOf(save, k + 1, |SaveFrom(v, plan, save, k + 1).saved|));
        } else {
          OneCall(save, k);
        }
      } else {
        OneCall(save, k);
      }
    }
  }

  lemma PlanRevision(w: Workspace, decisions: seq<CloseDecision>, plan: ClosePlan)
    requires IsPlanFor(w, decisions, plan)
    ensures plan.revision == w.revision
  {}

  lemma RunNothing(w: Workspace)
    ensures Run(w, []) == w
  {}

  lemma OneCall(save: SaveHandler, k: nat)
    ensures OpsOf(save, k, k + 1) == save(k).ops
  {
    assert OpsOf(save, k + 1, k + 1) == [];
  }

  // A plan executed on the workspace it was made for, after any operations in between: the commit never fails. It
  // succeeds exactly when every save succeeds and the revision is the planned one to the end; then nothing is open,
  // and the documents chosen to be saved were saved once each, in order. Otherwise the close changed nothing.
  lemma CoordinatedCloseIsAllOrNothing(w0: Workspace, decisions: seq<CloseDecision>, plan: ClosePlan,
                                       between: seq<WorkspaceOp>, save: SaveHandler)
    requires Consistent(w0) && IsPlanFor(w0, decisions, plan) && plan.status == Ready
    ensures var w := Run(w0, between);
            var r := ExecuteClose(w, plan, Some(save));
            var m := |plan.saveBeforeClose|;
            && plan.saveBeforeClose == Chosen(w0.documents, decisions)
            && r.result.status != CommitFailure
            && |r.saved| <= m && r.saved == plan.saveBeforeClose[..|r.saved|]
            && AllOrNothing(w, OpsOf(save, 0, |r.saved|), r)
            && (r.result.status == Closed <==>
                  && (forall i :: 0 <= i < m ==> save(i).reply == Saved)
                  && Run(w, OpsOf(save, 0, m)).revision == w0.revision)
            && (r.result.status == Closed ==>
                  && r.saved == plan.saveBeforeClose && r.workspace.documents == [] && r.workspace.active == None)
  {
    hide IsPlanFor, Consistent, Run, SaveFrom, Chosen;
    var w := Run(w0, between);
    PlanRevision(w0, decisions, plan);
    EqualRevisionEqualState(w0, between);
    EqualRevisionEqualState(w, OpsOf(save, 0, |plan.saveBeforeClose|));
    RunNothing(w);
    CommitCloses(w0, w0, decisions, plan);
    if w.revision == plan.revision {
      SavesAllOrNothing(w0, decisions, plan, w, save, 0);
      if plan.closeDocuments == [] { NothingChosen(w0.documents, decisions); }
    }
  }

  lemma NothingChosen(documents: seq<WorkspaceDocument>, decisions: seq<CloseDecision>)
    requires Ids(documents) == []
    ensures documents == [] && Chosen(documents, decisions) == []
  {
    assert |Ids(documents)| == |documents|;
  }

  // Without a handler the close succeeds exactly when nothing was chosen to be saved and the workspace has not moved on.
  lemma CloseWithoutHandler(w0: Workspace, decisions: seq<CloseDecision>, plan: ClosePlan, between: seq<WorkspaceOp>)
    requires Consistent(w0) && IsPlanFor(w0, decisions, plan) && plan.status == Ready
    ensures var w := Run(w0, between);
            var r := ExecuteClose(w, plan, None);
            && r.saved == [] && AllOrNothing(w, [], r) && r.result.status != CommitFailure
            && (r.result.status == Closed <==> w.revision == w0.revision && Chosen(w0.documents, decisions) == [])
  {
    hide IsPlanFor, Consistent, Run, Chosen;
    var w := Run(w0, between);
    PlanRevision(w0, decisions, plan);
    EqualRevisionEqualState(w0, between);
    RunNothing(w);
    CommitCloses(w0, w0, decisions, plan);
    if w.revision == plan.revision {
      CommitCloses(w0, w, decisions, plan);
      if plan.closeDocuments == [] { NothingChosen(w0.documents, decisions); }
    }
  }

  // The same for the second half alone, used when the saves finished elsewhere.
  lemma CommitAfterSavesIsAllOrNothing(w0: Workspace, decisions: seq<CloseDecision>, plan: ClosePlan, between: seq<WorkspaceOp>)
    requires Consistent(w0) && IsPlanFor(w0, decisions, plan) && plan.status == Ready
    ensures var w := Run(w0, between);
            CommitAfterSaves(w, plan) == if w.revision == w0.revision then (Closed, AllClosed(w)) else (StaleWorkspace, w)
  {
    hide IsPlanFor, Consistent, Run, CloseMany;
    var w := Run(w0, between);
    PlanRevision(w0, decisions, plan);
    EqualRevisionEqualState(w0, between);
    if w.revision == w0.revision { CommitCloses(w0, w, decisions, plan); }
  }
}
