// The layout model: a snapshot and a revision, changed only by validated operations.
module DockModel {
  import opened Basics
  import opened DockTypes
  import opened DockForest
  import opened DockValidate
  import opened DockGraft
  import opened DockMutation
  import opened DockPreserve

  datatype DockLayoutResult = DockLayoutResult(status: DockLayoutStatus, active: Option<nat>)

  datatype DockLayoutTransaction = DockLayoutTransaction(
    sourceRevision: nat, mutation: DockMutation, proposed: DockLayoutSnapshot)

  ghost predicate ValidTransaction(t: DockLayoutTransaction) {
    t.sourceRevision != 0 && t.mutation.panel != 0 && t.proposed.mainRoot != 0 && ValidSnapshot(t.proposed)
  }

  // ---- the operations as functions ----

  datatype GroupRequest = GroupRequest(
    group: nat, groupNode: nat, role: DockGroupRole, target: nat, splitNode: nat, edge: DockEdge, ratio: real)

  // The layout AddDockedGroup proposes, before it is validated.
  function GroupDocked(s: DockLayoutSnapshot, q: GroupRequest): Outcome {
    if q.group == 0 || q.groupNode == 0 || q.splitNode == 0 || FindGroup(s.groups, q.group).Some? ||
       FindNode(s.nodes, q.groupNode).Some? || FindNode(s.nodes, q.splitNode).Some?
    then Rejected(DuplicateId)
    else if !ValidRatio(q.ratio) then Rejected(InvalidArgument)
    else if FindGroup(s.groups, q.target).None? then Rejected(NotFound)
    else match TargetRow(s.nodes, q.target)
      case None => Rejected(InvalidGraph)
      case Some(target) =>
        var w := s.(groups := s.groups + [DockGroup(q.group, q.role, [], None)]);
        match GraftTable(w, q.groupNode, q.group, target, q.splitNode, q.edge, q.ratio)
        case None => Rejected(InvalidGraph)
        case Some(r) => Accepted(r)
  }

  function PanelAdded(s: DockLayoutSnapshot, panel: DockPanel, group: nat, index: Option<nat>): Outcome {
    if panel.id == 0 || panel.title == "" then Rejected(InvalidArgument)
    else if FindPanel(s.panels, panel.id).Some? then Rejected(DuplicateId)
    else match IndexOf(GroupIds(s.groups), group)
      case None => Rejected(NotFound)
      case Some(k) =>
        if s.groups[k].role != RoleFor(panel.role) then Rejected(RoleMismatch)
        else Accepted(InsertInto(s.(panels := s.panels + [panel]), panel.id, k, index))
  }

  datatype LayoutState = LayoutState(snapshot: DockLayoutSnapshot, revision: nat)

  datatype LayoutOp =
    | AddDockedGroupOp(request: GroupRequest)
    | AddPanelOp(panel: DockPanel, group: nat, index: Option<nat>)
    | CommitOp(transaction: DockLayoutTransaction)
    | ReplaceOp(snapshot: DockLayoutSnapshot)

  ghost function Install(ls: LayoutState, s: DockLayoutSnapshot): LayoutState {
    if ValidSnapshot(s) then LayoutState(s, ls.revision + 1) else ls
  }

  // One public call on the model; a rejected call changes nothing.
  ghost function Step(ls: LayoutState, op: LayoutOp): LayoutState {
    match op
    case AddDockedGroupOp(q) =>
      (match GroupDocked(ls.snapshot, q)
       case Rejected(_) => ls
       case Accepted(s) => Install(ls, s))
    case AddPanelOp(panel, group, index) =>
      (match PanelAdded(ls.snapshot, panel, group, index)
       case Rejected(_) => ls
       case Accepted(s) => LayoutState(s, ls.revision + 1))
    case CommitOp(t) => if t.sourceRevision == ls.revision then Install(ls, t.proposed) else ls
    case ReplaceOp(s) => Install(ls, s)
  }

  ghost function Run(ls: LayoutState, ops: seq<LayoutOp>): LayoutState {
    if ops == [] then ls else Step(Run(ls, ops[..|ops| - 1]), ops[|ops| - 1])
  }

  // ---- adding a group ----

  predicate RoomForGroup(s: DockLayoutSnapshot) {
    |s.groups| < MAX_GROUPS && |s.nodes| + 2 <= MAX_NODES
  }

  lemma EmptyGroupArranged(s: DockLayoutSnapshot, group: nat, role: DockGroupRole)
    requires Arranged(s)
    ensures Arranged(s.(groups := s.groups + [DockGroup(group, role, [], None)]))
  {
    var g := DockGroup(group, role, [], None);
    var w := s.(groups := s.groups + [g]);
    assert w.groups[..|s.groups|] == s.groups;
    assert Placements(w) == Placements(s);
    hide Placements, Placed;
  }

  // The target of an accepted request is an existing leaf row.
  lemma DockedTarget(s: DockLayoutSnapshot, q: GroupRequest) returns (row: DockNode)
    requires Structural(s) && GroupDocked(s, q).Accepted? && q.groupNode != q.splitNode
    ensures row in s.nodes && row.kind == GroupNode && row.group == q.target
    ensures FreshGraft(s, q.groupNode, row.id, q.splitNode)
    ensures var w := s.(groups := s.groups + [DockGroup(q.group, q.role, [], None)]);
            var r := GraftTable(w, q.groupNode, q.group, row.id, q.splitNode, q.edge, q.ratio);
            r.Some? && GroupDocked(s, q) == Accepted(r.value)
  {
    hide GraftTable, Structural;
    var target := TargetRow(s.nodes, q.target).value;
    row :| row in s.nodes && row.id == target && row.kind == GroupNode && row.group == q.target;
  }

  lemma DockedStaysSound(s: DockLayoutSnapshot, q: GroupRequest)
    requires Structural(s) && GroupDocked(s, q).Accepted? && q.groupNode != q.splitNode
    ensures Structural(GroupDocked(s, q).snapshot)
  {
    hide Arranged, HasForest, TableOk, GraftTable, FreshGraft, GraftedSnapshot;
    var row := DockedTarget(s, q);
    var w := s.(groups := s.groups + [DockGroup(q.group, q.role, [], None)]);
    assert GroupIds(w.groups) == GroupIds(s.groups) + [q.group];
    EmptyGroupArranged(s, q.group, q.role);
    GraftKeeps(s, w, q.groupNode, q.group, row.id, q.splitNode, q.edge, q.ratio);
  }

  // The one way a request can slip past the id checks: naming the same id for both new nodes.
  lemma SameNodeTwice(s: DockLayoutSnapshot, q: GroupRequest)
    requires GroupDocked(s, q).Accepted? && q.groupNode == q.splitNode
    ensures !DistinctIds(GroupDocked(s, q).snapshot)
  {
    var r := GroupDocked(s, q).snapshot;
    var n := |r.nodes|;
    assert r.nodes[n - 2].id == r.nodes[n - 1].id == q.groupNode;
    assert NodeIds(r.nodes)[n - 2] == NodeIds(r.nodes)[n - 1];
  }

  lemma DockedSizes(s: DockLayoutSnapshot, q: GroupRequest)
    requires GroupDocked(s, q).Accepted?
    ensures Grew(s, GroupDocked(s, q).snapshot, 1, 2, 0)
  {
    hide GraftTable;
    var target := TargetRow(s.nodes, q.target).value;
    var w := s.(groups := s.groups + [DockGroup(q.group, q.role, [], None)]);
    GraftSizes(w, q.groupNode, q.group, target, q.splitNode, q.edge, q.ratio);
  }

  // On a valid layout an accepted request passes validation exactly when there is room and the two new nodes differ.
  lemma DockedValidity(s: DockLayoutSnapshot, q: GroupRequest)
    requires ValidSnapshot(s) && GroupDocked(s, q).Accepted?
    ensures ValidSnapshot(GroupDocked(s, q).snapshot) <==> RoomForGroup(s) && q.groupNode != q.splitNode
  {
    hide GroupDocked, Structural;
    DockedSizes(s, q);
    if q.groupNode == q.splitNode {
      SameNodeTwice(s, q);
      if Structural(GroupDocked(s, q).snapshot) { StructuralIds(GroupDocked(s, q).snapshot); }
    } else {
      DockedStaysSound(s, q);
      StructuralIds(GroupDocked(s, q).snapshot);
    }
  }

  // Docking a group replaces the one leaf that shows the target by a split of that leaf and the new group.
  lemma DockedRefinesInsertion(s: DockLayoutSnapshot, q: GroupRequest, ts: seq<Tree>)
    returns (target: nat, at: nat, us: seq<Tree>)
    requires Structural(s) && IsForest(s.nodes, Roots(s), ts)
    requires GroupDocked(s, q).Accepted? && q.groupNode != q.splitNode
    ensures ShownOnce(ts, at, target, q.target)
    ensures us == GraftAll(ts, target, q.groupNode, q.group, q.splitNode, q.edge, q.ratio)
    ensures var r := GroupDocked(s, q).snapshot;
            IsForest(r.nodes, Roots(r), us) && InsertedBeside(ts, us, q.target, q.group, q.edge)
  {
    hide Structural, IsForest, InsertedBeside, GraftTable, NodeIds, ShownOnce;
    var row := DockedTarget(s, q);
    var w := s.(groups := s.groups + [DockGroup(q.group, q.role, [], None)]);
    assert UsableIds(NodeIds(s.nodes)) by { StructuralIds(s); }
    assert Roots(w) == Roots(s);
    GraftRefines(w, q.groupNode, q.group, row.id, q.splitNode, q.edge, q.ratio, ts);
    target := row.id;
    at := ShownInOneTree(s, row, ts);
    us := GraftAll(ts, row.id, q.groupNode, q.group, q.splitNode, q.edge, q.ratio);
    GraftInserts(s, row, ts, q.groupNode, q.group, q.splitNode, q.edge, q.ratio);
  }

  // ---- adding a panel ----

  lemma AddedGroupsOk(s: DockLayoutSnapshot, panel: DockPanel, k: nat, index: Option<nat>)
    requires GroupsOk(s) && PanelsPartitioned(s) && panel.id !in PanelIds(s.panels)
    requires k < |s.groups| && s.groups[k].role == RoleFor(panel.role)
    ensures GroupsOk(InsertInto(s.(panels := s.panels + [panel]), panel.id, k, index))
  {
    var r := InsertInto(s.(panels := s.panels + [panel]), panel.id, k, index);
    forall g | g in r.groups ensures SelectionOk(g) && RolesOk(r.panels, g) {
      var i :| 0 <= i < |r.groups| && r.groups[i] == g;
      var before := s.groups[i];
      assert before in s.groups && SelectionOk(before) && RolesOk(s.panels, before);
      UnknownNotPlaced(s, before, panel.id);
      forall x | x in g.panels ensures x in before.panels || (i == k && x == panel.id) {
        assert x in multiset(g.panels);
        assert i == k ==> multiset(g.panels) == multiset(before.panels) + multiset{panel.id};
        assert x in multiset(before.panels) + multiset{panel.id};
      }
      assert i == k ==> panel.id in multiset(g.panels);
      forall p | p in r.panels && p.id in g.panels ensures RoleFor(p.role) == g.role {
        if p in s.panels { PanelIdKnown(s.panels, p); }
      }
    }
  }

  lemma UnknownNotPlaced(s: DockLayoutSnapshot, g: DockGroup, id: nat)
    requires PanelsPartitioned(s) && g in s.groups && id !in PanelIds(s.panels)
    ensures id !in g.panels
  {
    SameMembers(Placements(s), PanelIds(s.panels));
    forall x | x in g.panels ensures x in PanelIds(s.panels) { GroupPlacements(s, g, x); }
  }

  lemma AddedHidden(s: DockLayoutSnapshot, panel: DockPanel)
    requires PanelsPartitioned(s) && panel.id !in PanelIds(s.panels)
    requires HiddenRolesOk(s.panels, HiddenPanels(s.autoHide))
    ensures HiddenRolesOk(s.panels + [panel], HiddenPanels(s.autoHide))
  {
    SameMembers(Placements(s), PanelIds(s.panels));
    assert forall x :: x in HiddenPanels(s.autoHide) ==> x in Placements(s);
  }

  lemma FrontGrows(a: seq<nat>, b: seq<nat>, rest: seq<nat>, x: nat)
    requires multiset(b) == multiset(a) + multiset{x}
    ensures multiset(b + rest) == multiset(a + rest) + multiset{x}
  {}

  lemma AddedArranged(s: DockLayoutSnapshot, panel: DockPanel, k: nat, index: Option<nat>)
    requires Arranged(s) && panel.id !in PanelIds(s.panels)
    requires k < |s.groups| && s.groups[k].role == RoleFor(panel.role)
    ensures Arranged(InsertInto(s.(panels := s.panels + [panel]), panel.id, k, index))
  {
    var r := InsertInto(s.(panels := s.panels + [panel]), panel.id, k, index);
    AddedGroupsOk(s, panel, k, index);
    AddedHidden(s, panel);
    hide GroupsOk, HiddenRolesOk, Placed, InsertPanel, HiddenPanels;
    InsertPlaced(s.groups, k, panel.id, index);
    FrontGrows(Placed(s.groups), Placed(r.groups), HiddenPanels(s.autoHide), panel.id);
    assert PanelIds(r.panels) == PanelIds(s.panels) + [panel.id];
  }

  lemma AddedStaysSound(s: DockLayoutSnapshot, panel: DockPanel, group: nat, index: Option<nat>)
    requires Structural(s) && PanelAdded(s, panel, group, index).Accepted?
    ensures Structural(PanelAdded(s, panel, group, index).snapshot)
  {
    hide Arranged, TableOk, HasForest, InsertPanel;
    var k := IndexOf(GroupIds(s.groups), group).value;
    var w := s.(panels := s.panels + [panel]);
    var r := PanelAdded(s, panel, group, index).snapshot;
    AddedArranged(s, panel, k, index);
    InsertPlaced(s.groups, k, panel.id, index);
    TableUntouched(s, r);
    assert PanelIds(r.panels) == PanelIds(s.panels) + [panel.id];
    assert panel.id in PanelIds(r.panels);
  }

  lemma AddedShape(s: DockLayoutSnapshot, panel: DockPanel, group: nat, index: Option<nat>)
    requires PanelAdded(s, panel, group, index).Accepted?
    ensures var r := PanelAdded(s, panel, group, index).snapshot;
            && r.panels == s.panels + [panel] && |r.groups| == |s.groups|
            && r == s.(panels := r.panels, groups := r.groups, activePanel := r.activePanel)
  {
    hide InsertPanel;
  }

  // AddPanel does not check the limits, so the layout stays valid exactly when the panel respects them.
  lemma AddedValidity(s: DockLayoutSnapshot, panel: DockPanel, group: nat, index: Option<nat>)
    requires ValidSnapshot(s) && PanelAdded(s, panel, group, index).Accepted?
    ensures ValidSnapshot(PanelAdded(s, panel, group, index).snapshot) <==>
            |s.panels| < MAX_PANELS && |panel.title| <= MAX_TITLE
  {
    hide Structural, PanelAdded;
    var r := PanelAdded(s, panel, group, index).snapshot;
    AddedShape(s, panel, group, index);
    AddedStaysSound(s, panel, group, index);
    assert panel in r.panels;
  }

  // ---- runs ----

  lemma StepStaysSound(ls: LayoutState, op: LayoutOp)
    requires Structural(ls.snapshot)
    ensures Structural(Step(ls, op).snapshot)
  {
    hide Structural, PanelAdded, GroupDocked;
    if op.AddPanelOp? && PanelAdded(ls.snapshot, op.panel, op.group, op.index).Accepted? {
      AddedStaysSound(ls.snapshot, op.panel, op.group, op.index);
    }
  }

  // No sequence of calls, accepted or not, with honest or forged transactions, can break the layout.
  lemma {:induction false} RunStaysSound(ls: LayoutState, ops: seq<LayoutOp>)
    requires Structural(ls.snapshot)
    ensures Structural(Run(ls, ops).snapshot)
  {
    hide Structural, Step;
    if ops == [] {
    } else {
      RunStaysSound(ls, ops[..|ops| - 1]);
      StepStaysSound(Run(ls, ops[..|ops| - 1]), ops[|ops| - 1]);
    }
  }

  // The one thing AddPanel leaves to its callers: a panel it takes must keep to the limits.
  predicate Respects(ls: LayoutState, op: LayoutOp) {
    op.AddPanelOp? && PanelAdded(ls.snapshot, op.panel, op.group, op.index).Accepted? ==>
      |ls.snapshot.panels| < MAX_PANELS && |op.panel.title| <= MAX_TITLE
  }

  ghost predicate AllRespect(ls: LayoutState, ops: seq<LayoutOp>) {
    forall i :: 0 <= i < |ops| ==> Respects(Run(ls, ops[..i]), ops[i])
  }

  lemma StepValidity(ls: LayoutState, op: LayoutOp)
    requires ValidSnapshot(ls.snapshot)
    ensures ValidSnapshot(Step(ls, op).snapshot) <==> Respects(ls, op)
  {
    hide ValidSnapshot, PanelAdded, GroupDocked;
    if op.AddPanelOp? && PanelAdded(ls.snapshot, op.panel, op.group, op.index).Accepted? {
      AddedValidity(ls.snapshot, op.panel, op.group, op.index);
    }
  }

  lemma {:induction false} ValidWhileRespected(ls: LayoutState, ops: seq<LayoutOp>)
    requires ValidSnapshot(ls.snapshot) && AllRespect(ls, ops)
    ensures ValidSnapshot(Run(ls, ops).snapshot)
  {
    hide ValidSnapshot, Step, Respects;
    if ops == [] {
    } else {
      var n := |ops| - 1;
      var init := ops[..n];
      forall i | 0 <= i < n ensures Respects(Run(ls, init[..i]), init[i]) {
        assert Respects(Run(ls, ops[..i]), ops[i]) && init[..i] == ops[..i];
      }
      ValidWhileRespected(ls, init);
      StepValidity(Run(ls, init), ops[n]);
    }
  }

  // The layout is valid, limits included, all through a run exactly when every panel it takes keeps to the limits.
  lemma RunStaysValid(ls: LayoutState, ops: seq<LayoutOp>)
    requires ValidSnapshot(ls.snapshot)
    ensures AllRespect(ls, ops) <==> forall i :: 0 <= i <= |ops| ==> ValidSnapshot(Run(ls, ops[..i]).snapshot)
  {
    hide ValidSnapshot, Step, Respects;
    if AllRespect(ls, ops) {
      forall i | 0 <= i <= |ops| ensures ValidSnapshot(Run(ls, ops[..i]).snapshot) {
        forall j | 0 <= j < i ensures Respects(Run(ls, ops[..i][..j]), ops[..i][j]) {
          assert Respects(Run(ls, ops[..j]), ops[j]) && ops[..i][..j] == ops[..j];
        }
        ValidWhileRespected(ls, ops[..i]);
      }
    } else {
      var i :| 0 <= i < |ops| && !Respects(Run(ls, ops[..i]), ops[i]);
      assert ops[..i + 1][..i] == ops[..i];
      if ValidSnapshot(Run(ls, ops[..i]).snapshot) {
        StepValidity(Run(ls, ops[..i]), ops[i]);
        assert !ValidSnapshot(Run(ls, ops[..i + 1]).snapshot);
      }
    }
  }

  // The revision tells layouts of one run apart.
  lemma {:induction false} RevisionIdentifiesLayout(ls: LayoutState, ops: seq<LayoutOp>)
    ensures Run(ls, ops).revision >= ls.revision
    ensures Run(ls, ops).revision == ls.revision ==> Run(ls, ops).snapshot == ls.snapshot
  {
    hide PanelAdded, GroupDocked, ValidSnapshot;
    if ops == [] {
    } else {
      RevisionIdentifiesLayout(ls, ops[..|ops| - 1]);
    }
  }

  lemma {:induction false} RunConcat(ls: LayoutState, a: seq<LayoutOp>, b: seq<LayoutOp>)
    ensures Run(ls, a + b) == Run(Run(ls, a), b)
  {
    hide Step;
    if b == [] {
      assert a + b == a;
    } else {
      assert (a + b)[..|a + b| - 1] == a + b[..|b| - 1];
      RunConcat(ls, a, b[..|b| - 1]);
    }
  }

  // ---- the model ----

  class DockLayoutModel {
    var state: DockLayoutSnapshot
    var revision: nat

    ghost function Now(): LayoutState
      reads this
    {
      LayoutState(state, revision)
    }

    constructor (rootGroup: nat, rootNode: nat, rootRole: DockGroupRole)
      requires rootGroup != 0 && rootNode != 0
      ensures ValidSnapshot(state) && revision == 1
      ensures state.mainRoot == rootNode && state.panels == [] && state.activePanel == None
      ensures IsForest(state.nodes, Roots(state), [Leaf(rootNode, rootGroup)])
    {
      state := InitialLayout(rootGroup, rootNode, rootRole);
      revision := 1;
      new;
      InitialLayoutValid(rootGroup, rootNode, rootRole);
    }

    method AddDockedGroup(q: GroupRequest) returns (result: DockLayoutResult)
      modifies this
      ensures Now() == Step(old(Now()), AddDockedGroupOp(q))
      ensures result.active == state.activePanel
      ensures result.status == Success <==> GroupDocked(old(state), q).Accepted? && ValidSnapshot(GroupDocked(old(state), q).snapshot)
      ensures match GroupDocked(old(state), q)
              case Rejected(reason) => result.status == reason && reason != Success
              case Accepted(s) => result.status == LayoutStatus(s)
      ensures result.status == Success <==> revision == old(revision) + 1
    {
      var groupKnown := FindGroup(state.groups, q.group).Some?;
      var nodesKnown := FindNode(state.nodes, q.groupNode).Some? || FindNode(state.nodes, q.splitNode).Some?;
      if q.group == 0 || q.groupNode == 0 || q.splitNode == 0 || groupKnown || nodesKnown {
        return DockLayoutResult(DuplicateId, state.activePanel);
      }
      if !ValidRatio(q.ratio) { return DockLayoutResult(InvalidArgument, state.activePanel); }
      if FindGroup(state.groups, q.target).None? { return DockLayoutResult(NotFound, state.activePanel); }
      var target := FindTargetRow(state.nodes, q.target);
      if target.None? { return DockLayoutResult(InvalidGraph, state.activePanel); }
      var proposed := state;
      proposed := proposed.(groups := proposed.groups + [DockGroup(q.group, q.role, [], None)]);
      proposed := proposed.(nodes := proposed.nodes + [LeafRow(q.groupNode, q.group)]);
      var replaced;
      replaced, proposed := ReplaceNodeReference(proposed, target.value, q.splitNode);
      if !replaced { return DockLayoutResult(InvalidGraph, state.activePanel); }
      proposed := proposed.(nodes := proposed.nodes + [SplitRow(q.splitNode, q.groupNode, target.value, q.edge, q.ratio)]);
      var status := Validate(proposed);
      if status != Success { return DockLayoutResult(status, state.activePanel); }
      state := proposed;
      revision := revision + 1;
      result := DockLayoutResult(Success, state.activePanel);
    }

    method AddPanel(panel: DockPanel, group: nat, index: Option<nat>) returns (result: DockLayoutResult)
      modifies this
      ensures Now() == Step(old(Now()), AddPanelOp(panel, group, index))
      ensures result.active == state.activePanel
      ensures match PanelAdded(old(state), panel, group, index)
              case Rejected(reason) => result.status == reason && reason != Success
              case Accepted(_) => result.status == Success && state.activePanel == Some(panel.id)
    {
      if panel.id == 0 || panel.title == "" { return DockLayoutResult(InvalidArgument, state.activePanel); }
      if FindPanel(state.panels, panel.id).Some? { return DockLayoutResult(DuplicateId, state.activePanel); }
      var found := IndexOf(GroupIds(state.groups), group);
      if found.None? { return DockLayoutResult(NotFound, state.activePanel); }
      if state.groups[found.value].role != RoleFor(panel.role) {
        return DockLayoutResult(RoleMismatch, state.activePanel);
      }
      state := state.(panels := state.panels + [panel]);
      var target := state.groups[found.value];
      var at := if index.Some? && index.value < |target.panels| then index.value else |target.panels|;
      target := target.(panels := InsertAt(target.panels, at, panel.id), active := Some(panel.id));
      state := state.(groups := state.groups[found.value := target]);
      state := state.(activePanel := Some(panel.id));
      revision := revision + 1;
      result := DockLayoutResult(Success, state.activePanel);
    }

    // Never changes the model. A proposal exists exactly when the mutation is accepted and its result valid.
    method Propose(m: DockMutation) returns (transaction: Option<DockLayoutTransaction>, failure: DockLayoutStatus)
      ensures transaction.Some? <==> Apply(state, m).Accepted? && ValidSnapshot(Apply(state, m).snapshot)
      ensures transaction.Some? ==> transaction.value == DockLayoutTransaction(revision, m, Apply(state, m).snapshot)
      ensures transaction.Some? <==> failure == Success
      ensures failure == match Apply(state, m) case Rejected(reason) => reason case Accepted(s) => LayoutStatus(s)
      ensures ValidSnapshot(state) ==> (transaction.Some? <==> Apply(state, m).Accepted? && RoomFor(state, m))
    {
      hide Apply, ValidSnapshot;
      var status, proposed := ApplyMutation(state, m);
      if status == Success { status := Validate(proposed); }
      failure := status;
      if ValidSnapshot(state) && Apply(state, m).Accepted? { ProposalFailsOnlyByCaps(state, m); }
      if status != Success { return None, failure; }
      transaction := Some(DockLayoutTransaction(revision, m, proposed));
    }

    method Commit(t: DockLayoutTransaction) returns (result: DockLayoutResult)
      modifies this
      ensures Now() == Step(old(Now()), CommitOp(t))
      ensures result.active == state.activePanel
      ensures result.status == Success <==> t.sourceRevision == old(revision) && ValidSnapshot(t.proposed)
      ensures result.status == if t.sourceRevision != old(revision) then StaleTransaction else LayoutStatus(t.proposed)
    {
      if t.sourceRevision != revision { return DockLayoutResult(StaleTransaction, state.activePanel); }
      var status := Validate(t.proposed);
      if status != Success { return DockLayoutResult(status, state.activePanel); }
      state := t.proposed;
      revision := revision + 1;
      result := DockLayoutResult(Success, state.activePanel);
    }

    method Replace(snapshot: DockLayoutSnapshot) returns (result: DockLayoutResult)
      modifies this
      ensures Now() == Step(old(Now()), ReplaceOp(snapshot))
      ensures result.active == state.activePanel
      ensures result.status == LayoutStatus(snapshot) && (result.status == Success <==> ValidSnapshot(snapshot))
    {
      var status := Validate(snapshot);
      if status != Success { return DockLayoutResult(status, state.activePanel); }
      state := snapshot;
      revision := revision + 1;
      result := DockLayoutResult(Success, state.activePanel);
    }
  }

  function InitialLayout(rootGroup: nat, rootNode: nat, role: DockGroupRole): DockLayoutSnapshot {
    DockLayoutSnapshot(rootNode, [], [DockGroup(rootGroup, role, [], None)], [LeafRow(rootNode, rootGroup)], [], [], None)
  }

  lemma InitialLayoutValid(rootGroup: nat, rootNode: nat, role: DockGroupRole)
    requires rootGroup != 0 && rootNode != 0
    ensures var s := InitialLayout(rootGroup, rootNode, role);
            ValidSnapshot(s) && IsForest(s.nodes, Roots(s), [Leaf(rootNode, rootGroup)])
  {
    var s := InitialLayout(rootGroup, rootNode, role);
    assert NodeIds(s.nodes) == [rootNode] && GroupIds(s.groups) == [rootGroup];
    assert LeafGroups(s.nodes[..0]) == [] && LeafGroups(s.nodes) == [rootGroup];
    assert s.groups[..0] == [] && Placed(s.groups) == [];
    assert Roots(s) == [rootNode];
    FindNodeAt(s.nodes, 0);
    assert [Leaf(rootNode, rootGroup)][..0] == [];
    assert IsForest(s.nodes, Roots(s), [Leaf(rootNode, rootGroup)]);
  }

  // A layout that AddPanel leaves beyond the limits, though the call succeeded.
  lemma AddPanelCanExceedLimits(title: string)
    requires |title| == MAX_TITLE + 1
    ensures var s := InitialLayout(1, 2, ToolGroup);
            var added := PanelAdded(s, DockPanel(3, title, ToolPanel, true), 1, None);
            ValidSnapshot(s) && added.Accepted? && Structural(added.snapshot) && !ValidSnapshot(added.snapshot)
  {
    var s := InitialLayout(1, 2, ToolGroup);
    InitialLayoutValid(1, 2, ToolGroup);
    assert GroupIds(s.groups) == [1];
    AddedStaysSound(s, DockPanel(3, title, ToolPanel, true), 1, None);
    AddedValidity(s, DockPanel(3, title, ToolPanel, true), 1, None);
  }
}
