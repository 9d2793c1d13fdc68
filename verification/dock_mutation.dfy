// The six layout mutations: what each computes, and that none of them can break a valid layout.
module DockMutation {
  import opened Basics
  import opened DockTypes
  import opened DockForest
  import opened DockValidate
  import opened DockGraft

  datatype DockMutationKind = Activate | MoveToGroup | SplitToGroup | FloatPanel | AutoHide | ClosePanel

  datatype DockMutation = DockMutation(
    kind: DockMutationKind,
    panel: nat,
    targetGroup: nat,
    targetIndex: Option<nat>,
    edge: DockEdge,
    newGroup: nat,
    newGroupNode: nat,
    newSplitNode: nat,
    newFloatingHost: nat,
    floatingPlacement: DockFloatingPlacement,
    splitRatio: real)

  datatype Outcome = Rejected(status: DockLayoutStatus) | Accepted(snapshot: DockLayoutSnapshot)

  // ---- detaching a panel ----

  function SelectFallback(g: DockGroup): DockGroup {
    if g.active.Some? && g.active.value in g.panels then g
    else g.(active := if g.panels == [] then None else Some(g.panels[0]))
  }

  function DetachFrom(g: DockGroup, id: nat): DockGroup {
    var kept := g.(panels := Without(g.panels, id));
    if |kept.panels| != |g.panels| then SelectFallback(kept) else kept
  }

  function DetachFromAll(groups: seq<DockGroup>, id: nat): (r: seq<DockGroup>)
    ensures |r| == |groups| && forall i :: 0 <= i < |r| ==> r[i] == DetachFrom(groups[i], id)
  {
    if groups == [] then []
    else DetachFromAll(groups[..|groups| - 1], id) + [DetachFrom(groups[|groups| - 1], id)]
  }

  function WithoutEntries(entries: seq<DockAutoHideEntry>, id: nat): (r: seq<DockAutoHideEntry>)
    ensures |r| <= |entries|
  {
    if entries == [] then []
    else if entries[0].panel == id then WithoutEntries(entries[1..], id)
    else [entries[0]] + WithoutEntries(entries[1..], id)
  }

  lemma HiddenCons(entry: DockAutoHideEntry, entries: seq<DockAutoHideEntry>)
    ensures HiddenPanels([entry] + entries) == [entry.panel] + HiddenPanels(entries)
  {}

  lemma {:induction false} WithoutEntriesPanels(entries: seq<DockAutoHideEntry>, id: nat)
    ensures HiddenPanels(WithoutEntries(entries, id)) == Without(HiddenPanels(entries), id)
  {
    if entries == [] {
    } else {
      WithoutEntriesPanels(entries[1..], id);
      HiddenCons(entries[0], entries[1..]);
      HiddenCons(entries[0], WithoutEntries(entries[1..], id));
      assert entries == [entries[0]] + entries[1..];
      hide HiddenPanels;
      assert HiddenPanels(entries)[1..] == HiddenPanels(entries[1..]);
    }
  }

  function Detached(s: DockLayoutSnapshot, id: nat): DockLayoutSnapshot {
    s.(groups := DetachFromAll(s.groups, id), autoHide := WithoutEntries(s.autoHide, id))
  }

  method DetachPanel(s: DockLayoutSnapshot, id: nat) returns (r: DockLayoutSnapshot)
    ensures r == Detached(s, id)
  {
    var groups := s.groups;
    for i := 0 to |groups|
      invariant |groups| == |s.groups|
      invariant forall k :: 0 <= k < |groups| ==> groups[k] == if k < i then DetachFrom(s.groups[k], id) else s.groups[k]
    {
      var size := |groups[i].panels|;
      var group := groups[i].(panels := Without(groups[i].panels, id));
      if |group.panels| != size { group := SelectFallback(group); }
      groups := groups[i := group];
    }
    assert groups == DetachFromAll(s.groups, id);
    r := s.(groups := groups, autoHide := WithoutEntries(s.autoHide, id));
  }

  lemma {:induction false} WithoutConcat(a: seq<nat>, b: seq<nat>, x: nat)
    ensures Without(a + b, x) == Without(a, x) + Without(b, x)
  {
    if a == [] {
      assert a + b == b;
    } else {
      assert (a + b)[1..] == a[1..] + b;
      WithoutConcat(a[1..], b, x);
    }
  }

  lemma {:induction false} DetachedPlaced(groups: seq<DockGroup>, id: nat)
    ensures Placed(DetachFromAll(groups, id)) == Without(Placed(groups), id)
  {
    if groups == [] {
    } else {
      var k := |groups| - 1;
      DetachedPlaced(groups[..k], id);
      WithoutConcat(Placed(groups[..k]), groups[k].panels, id);
      assert DetachFromAll(groups, id)[..k] == DetachFromAll(groups[..k], id);
    }
  }

  lemma DetachedGroupOk(panels: seq<DockPanel>, g: DockGroup, id: nat)
    requires SelectionOk(g) && RolesOk(panels, g)
    ensures SelectionOk(DetachFrom(g, id)) && RolesOk(panels, DetachFrom(g, id))
  {
    SameMembers(Without(g.panels, id), g.panels);
  }

  // The layout without one panel: everything else stays placed, in order.
  ghost predicate PlacedExcept(s: DockLayoutSnapshot, id: nat) {
    && multiset(Placements(s)) == multiset(PanelIds(s.panels))[id := 0]
    && GroupsOk(s)
    && HiddenRolesOk(s.panels, HiddenPanels(s.autoHide))
  }

  lemma DetachedSelections(s: DockLayoutSnapshot, id: nat)
    requires GroupsOk(s)
    ensures GroupsOk(Detached(s, id))
  {
    hide SelectionOk, RolesOk, DetachFrom, WithoutEntries;
    var d := Detached(s, id);
    forall g | g in d.groups ensures SelectionOk(g) && RolesOk(s.panels, g) {
      var i :| 0 <= i < |d.groups| && d.groups[i] == g;
      assert s.groups[i] in s.groups;
      DetachedGroupOk(s.panels, s.groups[i], id);
    }
  }

  lemma DetachedPlacements(s: DockLayoutSnapshot, id: nat)
    ensures Placements(Detached(s, id)) == Without(Placements(s), id)
  {
    DetachedPlaced(s.groups, id);
    WithoutEntriesPanels(s.autoHide, id);
    WithoutConcat(Placed(s.groups), HiddenPanels(s.autoHide), id);
  }

  lemma DetachLeavesRest(s: DockLayoutSnapshot, id: nat)
    requires Arranged(s)
    ensures PlacedExcept(Detached(s, id), id)
  {
    DetachedSelections(s, id);
    DetachedPlacements(s, id);
    WithoutEntriesPanels(s.autoHide, id);
    hide GroupsOk, Placements, Placed, DetachFromAll, WithoutEntries, Without;
    var hidden := HiddenPanels(s.autoHide);
    var rest := HiddenPanels(Detached(s, id).autoHide);
    forall x | x in rest ensures x in hidden {
      assert x in multiset(rest);
      assert x in multiset(hidden);
    }
  }

  // ---- what each kind computes ----

  function ActivateIn(groups: seq<DockGroup>, id: nat): (r: seq<DockGroup>)
    ensures |r| == |groups| &&
            forall i :: 0 <= i < |r| ==> r[i] == if id in groups[i].panels then groups[i].(active := Some(id)) else groups[i]
  {
    if groups == [] then []
    else
      var g := groups[|groups| - 1];
      ActivateIn(groups[..|groups| - 1], id) + [if id in g.panels then g.(active := Some(id)) else g]
  }

  function NextOrder(entries: seq<DockAutoHideEntry>, edge: DockEdge): (order: nat)
    ensures forall e :: e in entries && e.edge == edge ==> e.order < order
  {
    if entries == [] then 0
    else
      var order := NextOrder(entries[..|entries| - 1], edge);
      var last := entries[|entries| - 1];
      if last.edge == edge && last.order + 1 > order then last.order + 1 else order
  }

  function WithoutPanel(panels: seq<DockPanel>, id: nat): (r: seq<DockPanel>)
    ensures |r| <= |panels| && forall p :: p in r ==> p in panels
  {
    if panels == [] then []
    else if panels[0].id == id then WithoutPanel(panels[1..], id)
    else [panels[0]] + WithoutPanel(panels[1..], id)
  }

  lemma PanelIdsCons(panel: DockPanel, panels: seq<DockPanel>)
    ensures PanelIds([panel] + panels) == [panel.id] + PanelIds(panels)
  {}

  lemma {:induction false} WithoutPanelIds(panels: seq<DockPanel>, id: nat)
    ensures PanelIds(WithoutPanel(panels, id)) == Without(PanelIds(panels), id)
  {
    if panels == [] {
    } else {
      WithoutPanelIds(panels[1..], id);
      PanelIdsCons(panels[0], panels[1..]);
      PanelIdsCons(panels[0], WithoutPanel(panels[1..], id));
      assert panels == [panels[0]] + panels[1..];
      hide PanelIds;
      assert PanelIds(panels)[1..] == PanelIds(panels[1..]);
    }
  }

  function FirstInGroups(groups: seq<DockGroup>): Option<nat> {
    if groups == [] then None
    else if groups[0].active.Some? then groups[0].active
    else if groups[0].panels != [] then Some(groups[0].panels[0])
    else FirstInGroups(groups[1..])
  }

  function FirstPlacedPanel(s: DockLayoutSnapshot): Option<nat> {
    var placed := FirstInGroups(s.groups);
    if placed.Some? then placed
    else if s.autoHide != [] then Some(s.autoHide[0].panel)
    else None
  }

  function InsertAt(xs: seq<nat>, i: nat, x: nat): (r: seq<nat>)
    requires i <= |xs|
    ensures multiset(r) == multiset(xs) + multiset{x} && r[i] == x
  {
    assert xs == xs[..i] + xs[i..];
    xs[..i] + [x] + xs[i..]
  }

  function Activated(s: DockLayoutSnapshot, id: nat): DockLayoutSnapshot {
    s.(activePanel := Some(id), groups := ActivateIn(s.groups, id))
  }

  function Closed(s: DockLayoutSnapshot, id: nat): DockLayoutSnapshot {
    var d := Detached(s, id);
    var r := d.(panels := WithoutPanel(s.panels, id));
    if s.activePanel == Some(id) then r.(activePanel := FirstPlacedPanel(r)) else r
  }

  function Hidden(s: DockLayoutSnapshot, id: nat, edge: DockEdge): DockLayoutSnapshot {
    var d := Detached(s, id);
    d.(autoHide := d.autoHide + [DockAutoHideEntry(id, edge, NextOrder(d.autoHide, edge))], activePanel := Some(id))
  }

  function InsertPanel(g: DockGroup, id: nat, index: Option<nat>): DockGroup {
    var i := if index.Some? && index.value < |g.panels| then index.value else |g.panels|;
    g.(panels := InsertAt(g.panels, i, id), active := Some(id))
  }

  function InsertInto(s: DockLayoutSnapshot, id: nat, k: nat, index: Option<nat>): DockLayoutSnapshot
    requires k < |s.groups|
  {
    s.(groups := s.groups[k := InsertPanel(s.groups[k], id, index)], activePanel := Some(id))
  }

  // The panel alone in a group of its own, not yet in the table.
  function InNewGroup(s: DockLayoutSnapshot, panel: DockPanel, group: nat): DockLayoutSnapshot {
    var d := Detached(s, panel.id);
    d.(groups := d.groups + [DockGroup(group, RoleFor(panel.role), [panel.id], Some(panel.id))])
  }

  function TargetRow(nodes: seq<DockNode>, group: nat): (r: Option<nat>)
    ensures r.Some? ==> exists n :: n in nodes && n.id == r.value && n.kind == GroupNode && n.group == group
    ensures r.None? ==> forall n :: n in nodes && n.kind == GroupNode ==> n.group != group
  {
    if nodes == [] then None
    else if nodes[0].kind == GroupNode && nodes[0].group == group then Some(nodes[0].id)
    else TargetRow(nodes[1..], group)
  }

  function Floated(s: DockLayoutSnapshot, panel: DockPanel, m: DockMutation): Outcome {
    var w := InNewGroup(s, panel, m.newGroup);
    if m.newFloatingHost == 0 || m.newFloatingHost in HostIds(s.floatingHosts) || !ValidPlacement(m.floatingPlacement)
    then Rejected(DuplicateId)
    else Accepted(w.(nodes := w.nodes + [LeafRow(m.newGroupNode, m.newGroup)],
                     floatingHosts := w.floatingHosts + [DockFloatingHost(m.newFloatingHost, m.newGroupNode, m.floatingPlacement)],
                     activePanel := Some(panel.id)))
  }

  function SplitOff(s: DockLayoutSnapshot, panel: DockPanel, m: DockMutation): Outcome {
    var w := InNewGroup(s, panel, m.newGroup);
    var rows := w.nodes + [LeafRow(m.newGroupNode, m.newGroup)];
    if FindGroup(w.groups, m.targetGroup).None? then Rejected(NotFound)
    else if m.newSplitNode == 0 || FindNode(rows, m.newSplitNode).Some? || !ValidRatio(m.splitRatio) then Rejected(DuplicateId)
    else match TargetRow(rows, m.targetGroup)
      case None => Rejected(InvalidGraph)
      case Some(target) =>
        match GraftTable(w, m.newGroupNode, m.newGroup, target, m.newSplitNode, m.edge, m.splitRatio)
        case None => Rejected(InvalidGraph)
        case Some(r) => Accepted(r.(activePanel := Some(panel.id)))
  }

  function Apply(s: DockLayoutSnapshot, m: DockMutation): Outcome {
    match FindPanel(s.panels, m.panel)
    case None => Rejected(NotFound)
    case Some(panel) =>
      match m.kind
      case Activate => Accepted(Activated(s, m.panel))
      case ClosePanel => if panel.closable then Accepted(Closed(s, m.panel)) else Rejected(InvalidArgument)
      case AutoHide =>
        if panel.role == ToolPanel then Accepted(Hidden(s, m.panel, m.edge)) else Rejected(RoleMismatch)
      case MoveToGroup =>
        (match IndexOf(GroupIds(s.groups), m.targetGroup)
         case None => Rejected(NotFound)
         case Some(k) =>
           if s.groups[k].role != RoleFor(panel.role) then Rejected(RoleMismatch)
           else Accepted(InsertInto(Detached(s, m.panel), m.panel, k, m.targetIndex)))
      case _ =>
        if m.newGroup == 0 || m.newGroupNode == 0 || FindGroup(s.groups, m.newGroup).Some? ||
           FindNode(s.nodes, m.newGroupNode).Some?
        then Rejected(DuplicateId)
        else if m.kind == FloatPanel then Floated(s, panel, m)
        else SplitOff(s, panel, m)
  }

  // ---- the mutation routine ----

  method ActivatePanel(s: DockLayoutSnapshot, id: nat) returns (r: DockLayoutSnapshot)
    ensures r == Activated(s, id)
  {
    var groups := s.groups;
    for i := 0 to |groups|
      invariant |groups| == |s.groups|
      invariant forall k :: 0 <= k < |groups| ==>
        groups[k] == if k < i && id in s.groups[k].panels then s.groups[k].(active := Some(id)) else s.groups[k]
    {
      if id in groups[i].panels { groups := groups[i := groups[i].(active := Some(id))]; }
    }
    assert groups == ActivateIn(s.groups, id);
    r := s.(activePanel := Some(id), groups := groups);
  }

  lemma NextOrderStart(entries: seq<DockAutoHideEntry>, edge: DockEdge)
    ensures NextOrder(entries[..0], edge) == 0
  {}

  lemma NextOrderStep(entries: seq<DockAutoHideEntry>, i: nat, edge: DockEdge)
    requires i < |entries|
    ensures var order, e := NextOrder(entries[..i], edge), entries[i];
            NextOrder(entries[..i + 1], edge) == if e.edge == edge && e.order + 1 > order then e.order + 1 else order
  {
    assert entries[..i + 1][..i] == entries[..i];
  }

  method AutoHidePanel(s: DockLayoutSnapshot, id: nat, edge: DockEdge) returns (r: DockLayoutSnapshot)
    ensures r == Hidden(s, id, edge)
  {
    hide NextOrder, Detached;
    r := DetachPanel(s, id);
    var order := 0;
    NextOrderStart(r.autoHide, edge);
    for i := 0 to |r.autoHide|
      invariant order == NextOrder(r.autoHide[..i], edge)
    {
      var entry := r.autoHide[i];
      NextOrderStep(r.autoHide, i, edge);
      if entry.edge == edge && entry.order + 1 > order { order := entry.order + 1; }
    }
    assert r.autoHide[..|r.autoHide|] == r.autoHide;
    r := r.(autoHide := r.autoHide + [DockAutoHideEntry(id, edge, order)], activePanel := Some(id));
  }

  method FindTargetRow(nodes: seq<DockNode>, group: nat) returns (r: Option<nat>)
    ensures r == TargetRow(nodes, group)
  {
    for i := 0 to |nodes|
      invariant TargetRow(nodes, group) == TargetRow(nodes[i..], group)
    {
      if nodes[i].kind == GroupNode && nodes[i].group == group { return Some(nodes[i].id); }
    }
    r := None;
  }

  method ApplyMutation(s: DockLayoutSnapshot, m: DockMutation) returns (status: DockLayoutStatus, r: DockLayoutSnapshot)
    ensures match Apply(s, m)
            case Rejected(reason) => status == reason && status != Success
            case Accepted(snapshot) => status == Success && r == snapshot
  {
    r := s;
    var found := FindPanel(s.panels, m.panel);
    if found.None? { return NotFound, r; }
    var panel := found.value;
    var id := panel.id;
    match m.kind {
      case Activate =>
        r := ActivatePanel(s, id);
        return Success, r;
      case ClosePanel =>
        if !panel.closable { return InvalidArgument, r; }
        r := DetachPanel(s, id);
        r := r.(panels := WithoutPanel(r.panels, id));
        if r.activePanel == Some(id) { r := r.(activePanel := FirstPlacedPanel(r)); }
        return Success, r;
      case AutoHide =>
        if panel.role != ToolPanel { return RoleMismatch, r; }
        r := AutoHidePanel(s, id, m.edge);
        return Success, r;
      case MoveToGroup =>
        var index := IndexOf(GroupIds(s.groups), m.targetGroup);
        if index.None? { return NotFound, r; }
        if s.groups[index.value].role != RoleFor(panel.role) { return RoleMismatch, r; }
        r := DetachPanel(s, id);
        var target := r.groups[index.value];
        var at := if m.targetIndex.Some? && m.targetIndex.value < |target.panels| then m.targetIndex.value else |target.panels|;
        target := target.(panels := InsertAt(target.panels, at, id), active := Some(id));
        r := r.(groups := r.groups[index.value := target], activePanel := Some(id));
        return Success, r;
      case _ =>
        status, r := ApplyToNewGroup(s, m, panel);
    }
  }

  // The shared tail of split_to_group and float_panel.
  method ApplyToNewGroup(s: DockLayoutSnapshot, m: DockMutation, panel: DockPanel)
    returns (status: DockLayoutStatus, r: DockLayoutSnapshot)
    requires m.kind in {SplitToGroup, FloatPanel} && FindPanel(s.panels, m.panel) == Some(panel)
    ensures match Apply(s, m)
            case Rejected(reason) => status == reason && status != Success
            case Accepted(snapshot) => status == Success && r == snapshot
  {
    hide DetachFromAll, WithoutEntries, ReplaceFirst, FindNode, FindGroup, TargetRow, ValidPlacement, ValidRatio, LeafRow, SplitRow;
    r := s;
    var id := panel.id;
    if m.newGroup == 0 || m.newGroupNode == 0 || FindGroup(s.groups, m.newGroup).Some? ||
       FindNode(s.nodes, m.newGroupNode).Some? {
      return DuplicateId, r;
    }
    r := DetachPanel(s, id);
    r := r.(groups := r.groups + [DockGroup(m.newGroup, RoleFor(panel.role), [id], Some(id))]);
    ghost var w := r;
    r := r.(nodes := r.nodes + [LeafRow(m.newGroupNode, m.newGroup)]);
    if m.kind == FloatPanel {
      if m.newFloatingHost == 0 || m.newFloatingHost in HostIds(r.floatingHosts) || !ValidPlacement(m.floatingPlacement) {
        return DuplicateId, r;
      }
      r := r.(floatingHosts := r.floatingHosts + [DockFloatingHost(m.newFloatingHost, m.newGroupNode, m.floatingPlacement)],
              activePanel := Some(id));
      return Success, r;
    }
    var targetGroup := FindGroup(r.groups, m.targetGroup);
    if targetGroup.None? || m.newSplitNode == 0 || FindNode(r.nodes, m.newSplitNode).Some? || !ValidRatio(m.splitRatio) {
      return (if targetGroup.Some? then DuplicateId else NotFound), r;
    }
    var target := FindTargetRow(r.nodes, m.targetGroup);
    if target.None? { return InvalidGraph, r; }
    var replaced;
    replaced, r := ReplaceNodeReference(r, target.value, m.newSplitNode);
    if !replaced { return InvalidGraph, r; }
    r := r.(nodes := r.nodes + [SplitRow(m.newSplitNode, m.newGroupNode, target.value, m.edge, m.splitRatio)]);
    r := r.(activePanel := Some(id));
    status := Success;
  }
}
