// The persisted shape of a docking layout: panels, groups, a node table linked by id,
// floating hosts and auto-hide strips. Id zero is the empty id.
module DockTypes {
  import opened Basics

  datatype DockPanelRole = DocumentPanel | ToolPanel
  datatype DockGroupRole = DocumentGroup | ToolGroup
  datatype DockNodeKind = GroupNode | SplitNode
  datatype DockSplitOrientation = Vertical | Horizontal
  datatype DockEdge = LeftEdge | TopEdge | RightEdge | BottomEdge

  datatype DockPanel = DockPanel(id: nat, title: string, role: DockPanelRole, closable: bool)
  datatype DockGroup = DockGroup(id: nat, role: DockGroupRole, panels: seq<nat>, active: Option<nat>)
  datatype DockNode = DockNode(id: nat, kind: DockNodeKind, group: nat, orientation: DockSplitOrientation,
                               first: nat, second: nat, ratio: real)
  datatype DockFloatingPlacement = DockFloatingPlacement(x: real, y: real, width: real, height: real,
                                                         monitorKey: string)
  datatype DockFloatingHost = DockFloatingHost(id: nat, root: nat, placement: DockFloatingPlacement)
  datatype DockAutoHideEntry = DockAutoHideEntry(panel: nat, edge: DockEdge, order: nat)

  datatype DockLayoutSnapshot = DockLayoutSnapshot(
    mainRoot: nat,
    panels: seq<DockPanel>,
    groups: seq<DockGroup>,
    nodes: seq<DockNode>,
    floatingHosts: seq<DockFloatingHost>,
    autoHide: seq<DockAutoHideEntry>,
    activePanel: Option<nat>)

  datatype DockLayoutStatus =
    | Success | InvalidArgument | DuplicateId | NotFound | RoleMismatch | InvalidGraph | StaleTransaction

  const MAX_PANELS := 4096
  const MAX_GROUPS := 4096
  const MAX_NODES := 8192
  const MAX_FLOATING_HOSTS := 1024
  const MAX_AUTO_HIDE := 4096
  const MAX_TITLE := 4096

  function RoleFor(role: DockPanelRole): DockGroupRole {
    if role.DocumentPanel? then DocumentGroup else ToolGroup
  }

  predicate ValidRatio(r: real) { 0.1 <= r <= 0.9 }

  predicate ValidPlacement(p: DockFloatingPlacement) {
    80.0 <= p.width <= 100000.0 && 60.0 <= p.height <= 100000.0 && |p.monitorKey| <= 256
  }

  // The projections the source passes to its lookup and duplicate checks.
  function PanelIds(panels: seq<DockPanel>): seq<nat> {
    seq(|panels|, i requires 0 <= i < |panels| => panels[i].id)
  }
  function GroupIds(groups: seq<DockGroup>): seq<nat> {
    seq(|groups|, i requires 0 <= i < |groups| => groups[i].id)
  }
  function NodeIds(nodes: seq<DockNode>): seq<nat> {
    seq(|nodes|, i requires 0 <= i < |nodes| => nodes[i].id)
  }
  function HostIds(hosts: seq<DockFloatingHost>): seq<nat> {
    seq(|hosts|, i requires 0 <= i < |hosts| => hosts[i].id)
  }
  function HostRoots(hosts: seq<DockFloatingHost>): seq<nat> {
    seq(|hosts|, i requires 0 <= i < |hosts| => hosts[i].root)
  }
  function HiddenPanels(entries: seq<DockAutoHideEntry>): seq<nat> {
    seq(|entries|, i requires 0 <= i < |entries| => entries[i].panel)
  }

  function Roots(s: DockLayoutSnapshot): seq<nat> {
    [s.mainRoot] + HostRoots(s.floatingHosts)
  }

  function FindPanel(panels: seq<DockPanel>, id: nat): (r: Option<DockPanel>)
    ensures r.Some? ==> r.value in panels && r.value.id == id
    ensures r.None? <==> id !in PanelIds(panels)
  {
    match IndexOf(PanelIds(panels), id)
    case None => None
    case Some(i) => Some(panels[i])
  }

  function FindGroup(groups: seq<DockGroup>, id: nat): (r: Option<DockGroup>)
    ensures r.Some? ==> r.value in groups && r.value.id == id
    ensures r.None? <==> id !in GroupIds(groups)
  {
    match IndexOf(GroupIds(groups), id)
    case None => None
    case Some(i) => Some(groups[i])
  }

  function FindNode(nodes: seq<DockNode>, id: nat): (r: Option<DockNode>)
    ensures r.Some? ==> r.value in nodes && r.value.id == id
    ensures r.None? <==> id !in NodeIds(nodes)
  {
    match IndexOf(NodeIds(nodes), id)
    case None => None
    case Some(i) => Some(nodes[i])
  }

  lemma FindNodeUnique(nodes: seq<DockNode>, n: DockNode)
    requires NoDuplicates(NodeIds(nodes)) && n in nodes
    ensures FindNode(nodes, n.id) == Some(n)
  {
    var i :| 0 <= i < |nodes| && nodes[i] == n;
    IndexOfUnique(NodeIds(nodes), i);
  }

  // The panels the groups hold, group after group.
  function Placed(groups: seq<DockGroup>): seq<nat> {
    if groups == [] then []
    else Placed(groups[..|groups| - 1]) + groups[|groups| - 1].panels
  }

  lemma {:induction false} PlacedConcat(a: seq<DockGroup>, b: seq<DockGroup>)
    ensures Placed(a + b) == Placed(a) + Placed(b)
  {
    if b == [] {
      assert a + b == a;
    } else {
      var init, last := b[..|b| - 1], b[|b| - 1];
      assert (a + b)[..|a + b| - 1] == a + init && (a + b)[|a + b| - 1] == last;
      PlacedConcat(a, init);
      assert Placed(a) + (Placed(init) + last.panels) == Placed(a) + Placed(init) + last.panels;
    }
  }

  lemma PlacedSnoc(groups: seq<DockGroup>, g: DockGroup)
    ensures Placed(groups + [g]) == Placed(groups) + g.panels
  {
    assert (groups + [g])[..|groups|] == groups;
  }

  lemma {:induction false} PlacedSplit(groups: seq<DockGroup>, i: nat)
    requires i < |groups|
    ensures Placed(groups[..i + 1]) == Placed(groups[..i]) + groups[i].panels
    ensures Placed(groups) == Placed(groups[..i]) + groups[i].panels + Placed(groups[i + 1..])
  {
    hide Placed;
    PlacedSnoc(groups[..i], groups[i]);
    assert groups[..i] + [groups[i]] == groups[..i + 1];
    assert groups == groups[..i + 1] + groups[i + 1..];
    PlacedConcat(groups[..i + 1], groups[i + 1..]);
  }

  // The groups the leaf rows of the table name, row after row.
  function LeafGroups(nodes: seq<DockNode>): seq<nat> {
    if nodes == [] then []
    else
      var n := nodes[|nodes| - 1];
      LeafGroups(nodes[..|nodes| - 1]) + (if n.kind == GroupNode then [n.group] else [])
  }

  lemma LeafGroupsSnoc(nodes: seq<DockNode>, n: DockNode)
    ensures LeafGroups(nodes + [n]) == LeafGroups(nodes) + (if n.kind == GroupNode then [n.group] else [])
  {
    assert (nodes + [n])[..|nodes|] == nodes;
  }

  lemma {:induction false} LeafGroupsSplit(nodes: seq<DockNode>, i: nat)
    requires i < |nodes|
    ensures LeafGroups(nodes[..i + 1]) == LeafGroups(nodes[..i]) + (if nodes[i].kind == GroupNode then [nodes[i].group] else [])
    ensures LeafGroups(nodes[..i + 1]) <= LeafGroups(nodes)
    decreases |nodes|
  {
    hide LeafGroups;
    LeafGroupsSnoc(nodes[..i], nodes[i]);
    assert nodes[..i] + [nodes[i]] == nodes[..i + 1];
    if i + 1 < |nodes| {
      var init := nodes[..|nodes| - 1];
      LeafGroupsSplit(init, i);
      assert init[..i + 1] == nodes[..i + 1];
      LeafGroupsSnoc(init, nodes[|nodes| - 1]);
      assert nodes == init + [nodes[|nodes| - 1]];
    } else {
      assert nodes[..i + 1] == nodes;
    }
  }
}
