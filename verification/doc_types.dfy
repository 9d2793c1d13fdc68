// Document workspaces as values: the documents, the recently closed list, the active id and the revision,
// and every public operation as a function on them.
module DocTypes {
  import opened Basics

  // The form a path is compared in: lexically normal, preferred separators, ordinal case folding.
  // Nothing below depends on which function it is.
  const Canonical: string -> string

  predicate SamePath(left: string, right: string) {
    left != "" && right != "" && Canonical(left) == Canonical(right)
  }

  datatype DocumentViewState = DocumentViewState(
    selectionStart: nat, selectionEnd: nat, firstVisibleUnit: nat, zoom: real)
  {
    predicate IsValid() { selectionStart <= selectionEnd && 0.1 <= zoom <= 10.0 }
  }

  datatype WorkspaceDocument = WorkspaceDocument(
    id: nat, title: string, path: string, dirty: bool, canUndo: bool, canRedo: bool, view: DocumentViewState)

  predicate ValidDocument(d: WorkspaceDocument) {
    d.id != 0 && d.title != "" && d.view.IsValid()
  }

  datatype DocumentWorkspaceStatus = Success | InvalidArgument | DuplicateId | DuplicatePath | NotFound | StaleTransfer

  datatype DocumentTransferPlan = DocumentTransferPlan(
    source: nat, destination: nat, document: WorkspaceDocument, sourceIndex: nat, destinationIndex: Option<nat>,
    wasActive: bool, sourceRevision: nat, destinationRevision: nat, accepted: bool)

  predicate ValidPlan(p: DocumentTransferPlan) {
    p.source != 0 && p.destination != 0 && p.source != p.destination && ValidDocument(p.document)
  }

  datatype Workspace = Workspace(
    id: nat, maximumRecent: nat, documents: seq<WorkspaceDocument>, recent: seq<WorkspaceDocument>,
    active: Option<nat>, revision: nat)

  datatype Reply = Reply(status: DocumentWorkspaceStatus, workspace: Workspace)

  function Ids(documents: seq<WorkspaceDocument>): seq<nat> {
    seq(|documents|, i requires 0 <= i < |documents| => documents[i].id)
  }

  function FindIndex(w: Workspace, id: nat): (r: Option<nat>)
    ensures r.Some? ==> id != 0 && r.value < |w.documents| && w.documents[r.value].id == id
    ensures r.None? <==> id == 0 || id !in Ids(w.documents)
  {
    if id == 0 then None else IndexOf(Ids(w.documents), id)
  }

  predicate Holds(w: Workspace, id: nat) { FindIndex(w, id).Some? }

  predicate HasPath(documents: seq<WorkspaceDocument>, path: string) {
    exists d :: d in documents && SamePath(d.path, path)
  }

  // ---- the invariant of a workspace ----

  predicate DistinctDocuments(documents: seq<WorkspaceDocument>) {
    forall i, j :: 0 <= i < j < |documents| ==>
      documents[i].id != documents[j].id && !SamePath(documents[i].path, documents[j].path)
  }

  ghost predicate Consistent(w: Workspace) {
    && w.id != 0
    && (forall d :: d in w.documents ==> ValidDocument(d))
    && DistinctDocuments(w.documents)
    && (w.active.None? <==> w.documents == [])
    && (w.active.Some? ==> w.active.value in Ids(w.documents))
    && (forall d :: d in w.recent ==> ValidDocument(d))
    && DistinctDocuments(w.recent)
    && |w.recent| <= w.maximumRecent
  }

  // ---- operations ----

  function InsertDocument(documents: seq<WorkspaceDocument>, i: nat, d: WorkspaceDocument): seq<WorkspaceDocument>
    requires i <= |documents|
  {
    documents[..i] + [d] + documents[i..]
  }

  function RemoveDocument(documents: seq<WorkspaceDocument>, i: nat): seq<WorkspaceDocument>
    requires i < |documents|
  {
    documents[..i] + documents[i + 1..]
  }

  function Bumped(w: Workspace): Workspace { w.(revision := w.revision + 1) }

  function Add(w: Workspace, d: WorkspaceDocument, index: Option<nat>): Reply {
    if !ValidDocument(d) || (index.Some? && index.value > |w.documents|) then Reply(InvalidArgument, w)
    else if Holds(w, d.id) then Reply(DuplicateId, w)
    else if HasPath(w.documents, d.path) then Reply(DuplicatePath, w)
    else
      var at := if index.Some? then index.value else |w.documents|;
      Reply(Success, Bumped(w.(documents := InsertDocument(w.documents, at, d),
                               active := if w.active.None? then Some(d.id) else w.active)))
  }

  // The list without every entry that has the document's id or path.
  function Forget(recent: seq<WorkspaceDocument>, d: WorkspaceDocument): (r: seq<WorkspaceDocument>)
    ensures |r| <= |recent| && forall x :: x in r <==> x in recent && x.id != d.id && !SamePath(x.path, d.path)
  {
    if recent == [] then []
    else
      var rest := Forget(recent[1..], d);
      if recent[0].id == d.id || SamePath(recent[0].path, d.path) then rest else [recent[0]] + rest
  }

  function Truncate(recent: seq<WorkspaceDocument>, maximum: nat): seq<WorkspaceDocument> {
    if |recent| > maximum then recent[..maximum] else recent
  }

  function Remember(recent: seq<WorkspaceDocument>, maximum: nat, d: WorkspaceDocument): seq<WorkspaceDocument> {
    if maximum == 0 then recent else Truncate([d] + Forget(recent, d), maximum)
  }

  function Close(w: Workspace, id: nat, remember: bool): Reply {
    match FindIndex(w, id)
    case None => Reply(NotFound, w)
    case Some(i) =>
      var rest := RemoveDocument(w.documents, i);
      var active :=
        if w.active != Some(id) then w.active
        else if rest == [] then None
        else Some(rest[if i < |rest| then i else |rest| - 1].id);
      Reply(Success, Bumped(w.(documents := rest, active := active,
                               recent := if remember then Remember(w.recent, w.maximumRecent, w.documents[i]) else w.recent)))
  }

  // The documents that are not being closed, in order.
  function Survivors(documents: seq<WorkspaceDocument>, closing: seq<nat>): (r: seq<WorkspaceDocument>)
    ensures forall d :: d in r <==> d in documents && d.id !in closing
  {
    if documents == [] then []
    else (if documents[0].id in closing then [] else [documents[0]]) + Survivors(documents[1..], closing)
  }

  // The nearest survivor at or to the right of a position, else the nearest to its left.
  function Heir(documents: seq<WorkspaceDocument>, i: nat, closing: seq<nat>): Option<nat>
    requires i <= |documents|
  {
    var right, left := Survivors(documents[i..], closing), Survivors(documents[..i], closing);
    if right != [] then Some(right[0].id)
    else if left != [] then Some(left[|left| - 1].id)
    else None
  }

  // The first complaint about a list of ids to close.
  function CheckClosing(w: Workspace, ids: seq<nat>, k: nat): DocumentWorkspaceStatus
    requires k <= |ids|
    decreases |ids| - k
  {
    if k == |ids| then Success
    else if ids[k] == 0 || ids[k] in ids[..k] then InvalidArgument
    else if !Holds(w, ids[k]) then NotFound
    else CheckClosing(w, ids, k + 1)
  }

  function NextActive(w: Workspace, closing: seq<nat>): Option<nat> {
    if w.active.None? || w.active.value !in closing then w.active
    else Heir(w.documents, (if FindIndex(w, w.active.value).Some? then FindIndex(w, w.active.value).value else 0), closing)
  }

  function CloseMany(w: Workspace, ids: seq<nat>): Reply {
    if ids == [] then Reply(InvalidArgument, w)
    else if CheckClosing(w, ids, 0) != Success then Reply(CheckClosing(w, ids, 0), w)
    else Reply(Success, Bumped(w.(documents := Survivors(w.documents, ids), active := NextActive(w, ids))))
  }

  function Move(w: Workspace, id: nat, index: nat): Reply {
    match FindIndex(w, id)
    case None => Reply(NotFound, w)
    case Some(i) =>
      if index >= |w.documents| then Reply(InvalidArgument, w)
      else if i == index then Reply(Success, w)
      else Reply(Success, Bumped(w.(documents := InsertDocument(RemoveDocument(w.documents, i), index, w.documents[i]))))
  }

  function Activate(w: Workspace, id: nat): Reply {
    if !Holds(w, id) then Reply(NotFound, w)
    else if w.active == Some(id) then Reply(Success, w)
    else Reply(Success, Bumped(w.(active := Some(id))))
  }

  function Edit(w: Workspace, i: nat, d: WorkspaceDocument): Workspace
    requires i < |w.documents|
  {
    Bumped(w.(documents := w.documents[i := d]))
  }

  function SetDirty(w: Workspace, id: nat, dirty: bool): Reply {
    match FindIndex(w, id)
    case None => Reply(NotFound, w)
    case Some(i) =>
      if w.documents[i].dirty == dirty then Reply(Success, w)
      else Reply(Success, Edit(w, i, w.documents[i].(dirty := dirty)))
  }

  function SetUndoState(w: Workspace, id: nat, canUndo: bool, canRedo: bool): Reply {
    match FindIndex(w, id)
    case None => Reply(NotFound, w)
    case Some(i) =>
      if w.documents[i].canUndo == canUndo && w.documents[i].canRedo == canRedo then Reply(Success, w)
      else Reply(Success, Edit(w, i, w.documents[i].(canUndo := canUndo, canRedo := canRedo)))
  }

  function SetViewState(w: Workspace, id: nat, view: DocumentViewState): Reply {
    if !view.IsValid() then Reply(InvalidArgument, w)
    else match FindIndex(w, id)
      case None => Reply(NotFound, w)
      case Some(i) => Reply(Success, Edit(w, i, w.documents[i].(view := view)))
  }

  function Rename(w: Workspace, id: nat, title: string, path: string): Reply {
    if title == "" then Reply(InvalidArgument, w)
    else match FindIndex(w, id)
      case None => Reply(NotFound, w)
      case Some(i) =>
        if exists d :: d in w.documents && d.id != id && SamePath(d.path, path) then Reply(DuplicatePath, w)
        else Reply(Success, Edit(w, i, w.documents[i].(title := title, path := path)))
  }

  function ReopenRecentlyClosed(w: Workspace, index: nat): Reply {
    if index >= |w.recent| then Reply(NotFound, w)
    else
      var d := w.recent[index].(dirty := false);
      var added := Add(w, d, None);
      if added.status != Success then added
      else Reply(Success, Bumped(added.workspace.(recent := RemoveDocument(w.recent, index), active := Some(d.id))))
  }

  // The first complaint about a list of entries to restore, reading the list left to right.
  function CheckRecent(w: Workspace, entries: seq<WorkspaceDocument>, k: nat): DocumentWorkspaceStatus
    requires k <= |entries|
    decreases |entries| - k
  {
    if k == |entries| then Success
    else
      var d := entries[k];
      if !ValidDocument(d) || Holds(w, d.id) then InvalidArgument
      else if HasPath(w.documents, d.path) ||
              exists x :: x in Truncate(entries[..k], w.maximumRecent) && (x.id == d.id || SamePath(x.path, d.path))
      then DuplicatePath
      else CheckRecent(w, entries, k + 1)
  }

  function RestoreRecentlyClosed(w: Workspace, entries: seq<WorkspaceDocument>): Reply {
    if CheckRecent(w, entries, 0) != Success then Reply(CheckRecent(w, entries, 0), w)
    else Reply(Success, Bumped(w.(recent := Truncate(entries, w.maximumRecent))))
  }

  function ClearRecentlyClosed(w: Workspace): Workspace { w.(recent := []) }

  function PrepareTransfer(w: Workspace, id: nat, destination: nat, index: Option<nat>): Option<DocumentTransferPlan> {
    match FindIndex(w, id)
    case None => None
    case Some(i) =>
      if destination == 0 || destination == w.id then None
      else Some(DocumentTransferPlan(w.id, destination, w.documents[i], i, index, w.active == Some(id), w.revision, 0, false))
  }

  function AcceptTransfer(w: Workspace, plan: DocumentTransferPlan): (Reply, DocumentTransferPlan) {
    if !ValidPlan(plan) || plan.destination != w.id || plan.accepted then (Reply(InvalidArgument, w), plan)
    else
      var added := Add(w, plan.document, plan.destinationIndex);
      (added, if added.status == Success
              then plan.(accepted := true, destinationRevision := added.workspace.revision) else plan)
  }

  function CommitTransfer(w: Workspace, plan: DocumentTransferPlan): Reply {
    if !ValidPlan(plan) || plan.source != w.id || !plan.accepted then Reply(InvalidArgument, w)
    else if w.revision != plan.sourceRevision || !Holds(w, plan.document.id) then Reply(StaleTransfer, w)
    else Close(w, plan.document.id, false)
  }

  function RollbackTransfer(w: Workspace, plan: DocumentTransferPlan): Reply {
    if !ValidPlan(plan) || plan.destination != w.id || !plan.accepted then Reply(InvalidArgument, w)
    else if w.revision != plan.destinationRevision || !Holds(w, plan.document.id) then Reply(StaleTransfer, w)
    else Close(w, plan.document.id, false)
  }

  // ---- calls and runs ----

  datatype WorkspaceOp =
    | AddOp(document: WorkspaceDocument, index: Option<nat>)
    | CloseOp(id: nat, remember: bool)
    | CloseManyOp(ids: seq<nat>)
    | MoveOp(id: nat, to: nat)
    | ActivateOp(id: nat)
    | SetDirtyOp(id: nat, dirty: bool)
    | SetUndoStateOp(id: nat, canUndo: bool, canRedo: bool)
    | SetViewStateOp(id: nat, view: DocumentViewState)
    | RenameOp(id: nat, title: string, path: string)
    | ReopenOp(recentIndex: nat)
    | RestoreRecentOp(entries: seq<WorkspaceDocument>)
    | ClearRecentOp
    | AcceptOp(plan: DocumentTransferPlan)
    | CommitOp(plan: DocumentTransferPlan)
    | RollbackOp(plan: DocumentTransferPlan)

  function Call(w: Workspace, op: WorkspaceOp): Reply {
    match op
    case AddOp(d, index) => Add(w, d, index)
    case CloseOp(id, remember) => Close(w, id, remember)
    case CloseManyOp(ids) => CloseMany(w, ids)
    case MoveOp(id, to) => Move(w, id, to)
    case ActivateOp(id) => Activate(w, id)
    case SetDirtyOp(id, dirty) => SetDirty(w, id, dirty)
    case SetUndoStateOp(id, canUndo, canRedo) => SetUndoState(w, id, canUndo, canRedo)
    case SetViewStateOp(id, view) => SetViewState(w, id, view)
    case RenameOp(id, title, path) => Rename(w, id, title, path)
    case ReopenOp(index) => ReopenRecentlyClosed(w, index)
    case RestoreRecentOp(entries) => RestoreRecentlyClosed(w, entries)
    case ClearRecentOp => Reply(Success, ClearRecentlyClosed(w))
    case AcceptOp(plan) => AcceptTransfer(w, plan).0
    case CommitOp(plan) => CommitTransfer(w, plan)
    case RollbackOp(plan) => RollbackTransfer(w, plan)
  }

  function Run(w: Workspace, ops: seq<WorkspaceOp>): Workspace {
    if ops == [] then w else Call(Run(w, ops[..|ops| - 1]), ops[|ops| - 1]).workspace
  }
}
