// The document workspace as an object changed in place, proved against its functions on values.
module DocWorkspace {
  import opened Basics
  import opened DocTypes
  import opened DocLaws
  import opened DocClose

  datatype DocumentWorkspaceResult = DocumentWorkspaceResult(status: DocumentWorkspaceStatus, active: Option<nat>)

  class DocumentWorkspaceModel {
    const id: nat
    const maximumRecentlyClosed: nat
    var documents: seq<WorkspaceDocument>
    var recentlyClosed: seq<WorkspaceDocument>
    var active: Option<nat>
    var revision: nat

    function Now(): Workspace
      reads this
    {
      Workspace(id, maximumRecentlyClosed, documents, recentlyClosed, active, revision)
    }

    ghost predicate Valid()
      reads this
    {
      Consistent(Now())
    }

    constructor (workspaceId: nat, maximum: nat)
      requires workspaceId != 0
      ensures Valid() && Now() == Workspace(workspaceId, maximum, [], [], None, 0)
    {
      id, maximumRecentlyClosed := workspaceId, maximum;
      documents, recentlyClosed, active, revision := [], [], None, 0;
    }

    method Add(document: WorkspaceDocument, index: Option<nat>) returns (result: DocumentWorkspaceResult)
      requires Valid()
      modifies this
      ensures Valid()
      ensures Reply(result.status, Now()) == DocTypes.Add(old(Now()), document, index) && result.active == active
    {
      AddKeeps(Now(), document, index);
      if !ValidDocument(document) || (index.Some? && index.value > |documents|) {
        return DocumentWorkspaceResult(InvalidArgument, active);
      }
      if Holds(Now(), document.id) { return DocumentWorkspaceResult(DuplicateId, active); }
      if HasPath(documents, document.path) { return DocumentWorkspaceResult(DuplicatePath, active); }
      var insertion := if index.Some? then index.value else |documents|;
      documents := documents[..insertion] + [document] + documents[insertion..];
      if active.None? { active := Some(documents[insertion].id); }
      revision := revision + 1;
      result := DocumentWorkspaceResult(Success, active);
    }

    method RememberClosed(document: WorkspaceDocument)
      modifies this`recentlyClosed
      ensures recentlyClosed == Remember(old(recentlyClosed), maximumRecentlyClosed, document)
    {
      if maximumRecentlyClosed == 0 { return; }
      recentlyClosed := Forget(recentlyClosed, document);
      recentlyClosed := [document] + recentlyClosed;
      if |recentlyClosed| > maximumRecentlyClosed { recentlyClosed := recentlyClosed[..maximumRecentlyClosed]; }
    }

    method Close(documentId: nat, remember: bool) returns (result: DocumentWorkspaceResult)
      requires Valid()
      modifies this
      ensures Valid()
      ensures Reply(result.status, Now()) == DocTypes.Close(old(Now()), documentId, remember) && result.active == active
    {
      hide Consistent, Remember, Ids, DistinctDocuments;
      CloseKeeps(Now(), documentId, remember);
      var index := FindIndex(Now(), documentId);
      if index.None? { return DocumentWorkspaceResult(NotFound, active); }
      if remember { RememberClosed(documents[index.value]); }
      var wasActive := active == Some(documentId);
      documents := documents[..index.value] + documents[index.value + 1..];
      if wasActive {
        if documents == [] {
          active := None;
        } else {
          active := Some(documents[if index.value < |documents| then index.value else |documents| - 1].id);
        }
      }
      revision := revision + 1;
      result := DocumentWorkspaceResult(Success, active);
    }

    // Accepts exactly nonempty lists of distinct open documents, checking everything before changing anything.
    method CloseMany(ids: seq<nat>) returns (result: DocumentWorkspaceResult)
      requires Valid()
      modifies this
      ensures Valid()
      ensures Reply(result.status, Now()) == DocTypes.CloseMany(old(Now()), ids) && result.active == active
      ensures result.status == Success <==> Closable(old(Now()), ids)
    {
      hide Consistent, Survivors, Heir, CheckClosing, Closable;
      CloseManyKeeps(Now(), ids);
      CloseManySucceeds(Now(), ids);
      if ids == [] { return DocumentWorkspaceResult(InvalidArgument, active); }
      var status := CheckIds(ids);
      if status != Success { return DocumentWorkspaceResult(status, active); }
      var remaining := CollectRemaining(ids);
      var nextActive := active;
      if active.Some? && active.value in ids {
        var found := FindIndex(Now(), active.value);
        nextActive := FindHeir(if found.Some? then found.value else 0, ids);
      }
      documents := remaining;
      active := nextActive;
      revision := revision + 1;
      result := DocumentWorkspaceResult(Success, active);
    }

    method CheckIds(ids: seq<nat>) returns (status: DocumentWorkspaceStatus)
      ensures status == CheckClosing(Now(), ids, 0)
    {
      var unique := [];
      for k := 0 to |ids|
        invariant unique == ids[..k]
        invariant CheckClosing(Now(), ids, 0) == CheckClosing(Now(), ids, k)
      {
        if ids[k] == 0 || ids[k] in unique { return InvalidArgument; }
        if !Holds(Now(), ids[k]) { return NotFound; }
        unique := unique + [ids[k]];
      }
      status := Success;
    }

    method CollectRemaining(ids: seq<nat>) returns (remaining: seq<WorkspaceDocument>)
      ensures remaining == Survivors(documents, ids)
    {
      remaining := [];
      assert Survivors(documents[..0], ids) == [];
      for i := 0 to |documents|
        invariant remaining == Survivors(documents[..i], ids)
      {
        SurvivorsLast(documents, i, ids);
        if documents[i].id !in ids { remaining := remaining + [documents[i]]; }
      }
      assert documents[..|documents|] == documents;
    }

    // Looks right from the old active position, then left.
    method FindHeir(position: nat, ids: seq<nat>) returns (heir: Option<nat>)
      requires position <= |documents|
      ensures heir == Heir(documents, position, ids)
    {
      hide Survivors;
      heir := FindRight(position, ids);
      if heir.Some? { return; }
      heir := FindLeft(position, ids);
    }

    method FindRight(position: nat, ids: seq<nat>) returns (found: Option<nat>)
      requires position <= |documents|
      ensures var right := Survivors(documents[position..], ids);
              found == if right != [] then Some(right[0].id) else None
    {
      hide Survivors;
      for i := position to |documents|
        invariant Survivors(documents[position..], ids) == Survivors(documents[i..], ids)
      {
        SurvivorsFirst(documents, i, ids);
        if documents[i].id !in ids { return Some(documents[i].id); }
      }
      NoSurvivors(documents[|documents|..], ids);
      found := None;
    }

    method FindLeft(position: nat, ids: seq<nat>) returns (found: Option<nat>)
      requires position <= |documents|
      ensures var left := Survivors(documents[..position], ids);
              found == if left != [] then Some(left[|left| - 1].id) else None
    {
      hide Survivors;
      var i := position;
      while i > 0
        invariant 0 <= i <= position
        invariant Survivors(documents[..position], ids) == Survivors(documents[..i], ids)
      {
        SurvivorsLast(documents, i - 1, ids);
        if documents[i - 1].id !in ids { return Some(documents[i - 1].id); }
        i := i - 1;
      }
      NoSurvivors(documents[..0], ids);
      found := None;
    }

    method Move(documentId: nat, index: nat) returns (result: DocumentWorkspaceResult)
      requires Valid()
      modifies this
      ensures Valid()
      ensures Reply(result.status, Now()) == DocTypes.Move(old(Now()), documentId, index) && result.active == active
    {
      MoveKeeps(Now(), documentId, index);
      var current := FindIndex(Now(), documentId);
      if current.None? { return DocumentWorkspaceResult(NotFound, active); }
      if index >= |documents| { return DocumentWorkspaceResult(InvalidArgument, active); }
      if current.value == index { return DocumentWorkspaceResult(Success, active); }
      var document := documents[current.value];
      documents := documents[..current.value] + documents[current.value + 1..];
      documents := documents[..index] + [document] + documents[index..];
      revision := revision + 1;
      result := DocumentWorkspaceResult(Success, active);
    }

    method Activate(documentId: nat) returns (result: DocumentWorkspaceResult)
      requires Valid()
      modifies this
      ensures Valid()
      ensures Reply(result.status, Now()) == DocTypes.Activate(old(Now()), documentId) && result.active == active
    {
      ActivateKeeps(Now(), documentId);
      if !Holds(Now(), documentId) { return DocumentWorkspaceResult(NotFound, active); }
      if active != Some(documentId) {
        active := Some(documentId);
        revision := revision + 1;
      }
      result := DocumentWorkspaceResult(Success, active);
    }

    // SetDirty, SetUndoState and SetViewState differ only in the fields they write; Rename also checks the path.
    method SetDirty(documentId: nat, dirty: bool) returns (result: DocumentWorkspaceResult)
      requires Valid()
      modifies this
      ensures Valid()
      ensures Reply(result.status, Now()) == DocTypes.SetDirty(old(Now()), documentId, dirty) && result.active == active
    {
      CallKeepsConsistent(Now(), SetDirtyOp(documentId, dirty));
      var index := FindIndex(Now(), documentId);
      if index.None? { return DocumentWorkspaceResult(NotFound, active); }
      if documents[index.value].dirty != dirty {
        documents := documents[index.value := documents[index.value].(dirty := dirty)];
        revision := revision + 1;
      }
      result := DocumentWorkspaceResult(Success, active);
    }

    method SetUndoState(documentId: nat, canUndo: bool, canRedo: bool) returns (result: DocumentWorkspaceResult)
      requires Valid()
      modifies this
      ensures Valid()
      ensures Reply(result.status, Now()) == DocTypes.SetUndoState(old(Now()), documentId, canUndo, canRedo) && result.active == active
    {
      CallKeepsConsistent(Now(), SetUndoStateOp(documentId, canUndo, canRedo));
      var index := FindIndex(Now(), documentId);
      if index.None? { return DocumentWorkspaceResult(NotFound, active); }
      if documents[index.value].canUndo != canUndo || documents[index.value].canRedo != canRedo {
        documents := documents[index.value := documents[index.value].(canUndo := canUndo, canRedo := canRedo)];
        revision := revision + 1;
      }
      result := DocumentWorkspaceResult(Success, active);
    }

    method SetViewState(documentId: nat, view: DocumentViewState) returns (result: DocumentWorkspaceResult)
      requires Valid()
      modifies this
      ensures Valid()
      ensures Reply(result.status, Now()) == DocTypes.SetViewState(old(Now()), documentId, view) && result.active == active
    {
      CallKeepsConsistent(Now(), SetViewStateOp(documentId, view));
      if !view.IsValid() { return DocumentWorkspaceResult(InvalidArgument, active); }
      var index := FindIndex(Now(), documentId);
      if index.None? { return DocumentWorkspaceResult(NotFound, active); }
      documents := documents[index.value := documents[index.value].(view := view)];
      revision := revision + 1;
      result := DocumentWorkspaceResult(Success, active);
    }

    method Rename(documentId: nat, title: string, path: string) returns (result: DocumentWorkspaceResult)
      requires Valid()
      modifies this
      ensures Valid()
      ensures Reply(result.status, Now()) == DocTypes.Rename(old(Now()), documentId, title, path) && result.active == active
    {
      RenameKeeps(Now(), documentId, title, path);
      if title == "" { return DocumentWorkspaceResult(InvalidArgument, active); }
      var index := FindIndex(Now(), documentId);
      if index.None? { return DocumentWorkspaceResult(NotFound, active); }
      if path != "" && exists d :: d in documents && d.id != documentId && SamePath(d.path, path) {
        return DocumentWorkspaceResult(DuplicatePath, active);
      }
      documents := documents[index.value := documents[index.value].(title := title, path := path)];
      revision := revision + 1;
      result := DocumentWorkspaceResult(Success, active);
    }

    method ReopenRecentlyClosed(index: nat) returns (result: DocumentWorkspaceResult)
      requires Valid()
      modifies this
      ensures Valid()
      ensures Reply(result.status, Now()) == DocTypes.ReopenRecentlyClosed(old(Now()), index) && result.active == active
    {
      ReopenKeeps(Now(), index);
      if index >= |recentlyClosed| { return DocumentWorkspaceResult(NotFound, active); }
      var document := recentlyClosed[index].(dirty := false);
      var added := Add(document, None);
      if added.status != Success { return added; }
      recentlyClosed := recentlyClosed[..index] + recentlyClosed[index + 1..];
      active := Some(document.id);
      revision := revision + 1;
      result := DocumentWorkspaceResult(Success, active);
    }

    method RestoreRecentlyClosed(entries: seq<WorkspaceDocument>) returns (result: DocumentWorkspaceResult)
      requires Valid()
      modifies this
      ensures Valid()
      ensures Reply(result.status, Now()) == DocTypes.RestoreRecentlyClosed(old(Now()), entries) && result.active == active
    {
      hide Consistent, DistinctDocuments, FindIndex, DocTypes.Ids;
      RestoreRecentKeeps(Now(), entries);
      var restored := [];
      for k := 0 to |entries|
        invariant restored == Truncate(entries[..k], maximumRecentlyClosed)
        invariant CheckRecent(Now(), entries, 0) == CheckRecent(Now(), entries, k)
      {
        var document := entries[k];
        if !ValidDocument(document) || Holds(Now(), document.id) { return DocumentWorkspaceResult(InvalidArgument, active); }
        if HasPath(documents, document.path) ||
           exists x :: x in restored && (x.id == document.id || SamePath(x.path, document.path)) {
          return DocumentWorkspaceResult(DuplicatePath, active);
        }
        assert entries[..k + 1] == entries[..k] + [document];
        if |restored| < maximumRecentlyClosed { restored := restored + [document]; }
      }
      assert entries[..|entries|] == entries;
      recentlyClosed := restored;
      revision := revision + 1;
      result := DocumentWorkspaceResult(Success, active);
    }

    method ClearRecentlyClosed()
      requires Valid()
      modifies this`recentlyClosed
      ensures Valid() && Now() == DocTypes.ClearRecentlyClosed(old(Now()))
    {
      recentlyClosed := [];
    }

    method AcceptTransfer(plan: DocumentTransferPlan) returns (result: DocumentWorkspaceResult, next: DocumentTransferPlan)
      requires Valid()
      modifies this
      ensures Valid()
      ensures (Reply(result.status, Now()), next) == DocTypes.AcceptTransfer(old(Now()), plan) && result.active == active
    {
      next := plan;
      if !ValidPlan(plan) || plan.destination != id || plan.accepted {
        return DocumentWorkspaceResult(InvalidArgument, active), next;
      }
      result := Add(plan.document, plan.destinationIndex);
      if result.status == Success {
        next := next.(accepted := true, destinationRevision := revision);
      }
    }

    method CommitTransfer(plan: DocumentTransferPlan) returns (result: DocumentWorkspaceResult)
      requires Valid()
      modifies this
      ensures Valid()
      ensures Reply(result.status, Now()) == DocTypes.CommitTransfer(old(Now()), plan) && result.active == active
    {
      if !ValidPlan(plan) || plan.source != id || !plan.accepted { return DocumentWorkspaceResult(InvalidArgument, active); }
      if revision != plan.sourceRevision || !Holds(Now(), plan.document.id) {
        return DocumentWorkspaceResult(StaleTransfer, active);
      }
      result := Close(plan.document.id, false);
    }

    method RollbackTransfer(plan: DocumentTransferPlan) returns (result: DocumentWorkspaceResult)
      requires Valid()
      modifies this
      ensures Valid()
      ensures Reply(result.status, Now()) == DocTypes.RollbackTransfer(old(Now()), plan) && result.active == active
    {
      if !ValidPlan(plan) || plan.destination != id || !plan.accepted { return DocumentWorkspaceResult(InvalidArgument, active); }
      if revision != plan.destinationRevision || !Holds(Now(), plan.document.id) {
        return DocumentWorkspaceResult(StaleTransfer, active);
      }
      result := Close(plan.document.id, false);
    }
  }

  lemma NoSurvivors(documents: seq<WorkspaceDocument>, closing: seq<nat>)
    requires documents == []
    ensures Survivors(documents, closing) == []
  {}

  lemma SurvivorsLast(documents: seq<WorkspaceDocument>, i: nat, closing: seq<nat>)
    requires i < |documents|
    ensures Survivors(documents[..i + 1], closing) ==
            Survivors(documents[..i], closing) + (if documents[i].id in closing then [] else [documents[i]])
  {
    SurvivorsOfOne(documents[i], closing);
    hide Survivors;
    assert documents[..i + 1] == documents[..i] + [documents[i]];
    SurvivorsConcat(documents[..i], [documents[i]], closing);
  }

  lemma SurvivorsFirst(documents: seq<WorkspaceDocument>, i: nat, closing: seq<nat>)
    requires i < |documents|
    ensures Survivors(documents[i..], closing) ==
            (if documents[i].id in closing then [] else [documents[i]]) + Survivors(documents[i + 1..], closing)
  {
    assert documents[i..][1..] == documents[i + 1..];
  }

  lemma SurvivorsOfOne(d: WorkspaceDocument, closing: seq<nat>)
    ensures Survivors([d], closing) == if d.id in closing then [] else [d]
  {}

  // A commit right after its plan was prepared and accepted elsewhere cannot fail.
  lemma FreshCommitSucceeds(source: Workspace, destination: Workspace, id: nat, index: Option<nat>)
    requires Consistent(source) && PrepareTransfer(source, id, destination.id, index).Some?
    ensures var plan := PrepareTransfer(source, id, destination.id, index).value;
            && ValidPlan(plan) && plan.document.id == id
            && var (added, accepted) := AcceptTransfer(destination, plan);
               && added == Add(destination, plan.document, index)
               && (added.status == Success ==> CommitTransfer(source, accepted) == Close(source, id, false) &&
                                               Close(source, id, false).status == Success)
  {
    var plan := PrepareTransfer(source, id, destination.id, index).value;
    assert plan.document in source.documents;
    hide Add, Close;
    assert Close(source, id, false).status == Success by { CloseOpen(source, id); }
  }

  lemma CloseOpen(w: Workspace, id: nat)
    requires Holds(w, id)
    ensures Close(w, id, false).status == Success
  {}

  // Moves a document between two workspaces, or changes neither. The rollback branch cannot be reached.
  method TransferDocument(source: DocumentWorkspaceModel, destination: DocumentWorkspaceModel, id: nat, index: Option<nat>)
    returns (result: DocumentWorkspaceResult)
    requires source.Valid() && destination.Valid()
    modifies source, destination
    ensures source.Valid() && destination.Valid()
    ensures var s, d := old(source.Now()), old(destination.Now());
            if !Holds(s, id) || d.id == s.id then
              result.status == InvalidArgument && source.Now() == s && destination.Now() == d
            else
              var added := Add(d, s.documents[FindIndex(s, id).value], index);
              && result.status == added.status
              && (added.status != Success ==> source.Now() == s && destination.Now() == d)
              && (added.status == Success ==>
                    && source.Now() == Close(s, id, false).workspace
                    && destination.Now() == if s.active == Some(id) then Activate(added.workspace, id).workspace else added.workspace)
  {
    ghost var s, d := source.Now(), destination.Now();
    var prepared := PrepareTransfer(source.Now(), id, destination.id, index);
    if prepared.None? { return DocumentWorkspaceResult(InvalidArgument, source.active); }
    FreshCommitSucceeds(s, d, id, index);
    hide Consistent, DocTypes.Add, DocTypes.Close, FindIndex;
    assert source.id != destination.id;
    var accepted, plan := destination.AcceptTransfer(prepared.value);
    if accepted.status != Success {
      AddFailureKeeps(d, prepared.value.document, index);
      return accepted;
    }
    var committed := source.CommitTransfer(plan);
    if committed.status != Success {
      assert false;
      return committed;
    }
    if plan.wasActive { var _ := destination.Activate(id); }
    result := DocumentWorkspaceResult(Success, destination.active);
  }

  lemma AddFailureKeeps(w: Workspace, d: WorkspaceDocument, index: Option<nat>)
    ensures Add(w, d, index).status != Success ==> Add(w, d, index).workspace == w
  {}

  // ---- operations chosen by callbacks ----

  // One operation on the object, as a callback may ask for it.
  method Invoke(workspace: DocumentWorkspaceModel, op: WorkspaceOp)
    requires workspace.Valid()
    modifies workspace
    ensures workspace.Valid() && workspace.Now() == Call(old(workspace.Now()), op).workspace
  {
    hide Consistent, DocTypes.Add, DocTypes.Close, DocTypes.CloseMany, DocTypes.Move, DocTypes.Activate, DocTypes.SetDirty,
      DocTypes.SetUndoState, DocTypes.SetViewState, DocTypes.Rename, DocTypes.ReopenRecentlyClosed,
      DocTypes.RestoreRecentlyClosed, DocTypes.AcceptTransfer, DocTypes.CommitTransfer, DocTypes.RollbackTransfer,
      Closable;
    match op
    case AddOp(d, index) => var _ := workspace.Add(d, index);
    case CloseOp(id, remember) => var _ := workspace.Close(id, remember);
    case CloseManyOp(ids) => var _ := workspace.CloseMany(ids);
    case MoveOp(id, to) => var _ := workspace.Move(id, to);
    case ActivateOp(id) => var _ := workspace.Activate(id);
    case SetDirtyOp(id, dirty) => var _ := workspace.SetDirty(id, dirty);
    case SetUndoStateOp(id, canUndo, canRedo) => var _ := workspace.SetUndoState(id, canUndo, canRedo);
    case SetViewStateOp(id, view) => var _ := workspace.SetViewState(id, view);
    case RenameOp(id, title, path) => var _ := workspace.Rename(id, title, path);
    case ReopenOp(index) => var _ := workspace.ReopenRecentlyClosed(index);
    case RestoreRecentOp(entries) => var _ := workspace.RestoreRecentlyClosed(entries);
    case ClearRecentOp => workspace.ClearRecentlyClosed();
    case AcceptOp(plan) => var _, _ := workspace.AcceptTransfer(plan);
    case CommitOp(plan) => var _ := workspace.CommitTransfer(plan);
    case RollbackOp(plan) => var _ := workspace.RollbackTransfer(plan);
  }

  lemma RunNone(w: Workspace, ops: seq<WorkspaceOp>)
    ensures Run(w, ops[..0]) == w
  {}

  lemma RunNext(w: Workspace, ops: seq<WorkspaceOp>, i: nat)
    requires i < |ops|
    ensures Run(w, ops[..i + 1]) == Call(Run(w, ops[..i]), ops[i]).workspace
  {
    assert ops[..i + 1][..i] == ops[..i];
  }

  method Perform(workspace: DocumentWorkspaceModel, ops: seq<WorkspaceOp>)
    requires workspace.Valid()
    modifies workspace
    ensures workspace.Valid() && workspace.Now() == Run(old(workspace.Now()), ops)
  {
    hide Call, Consistent, Run;
    ghost var w := workspace.Now();
    RunNone(w, ops);
    for i := 0 to |ops|
      invariant workspace.Valid() && workspace.Now() == Run(w, ops[..i])
    {
      Invoke(workspace, ops[i]);
      RunNext(w, ops, i);
    }
    assert ops[..|ops|] == ops;
  }
}
