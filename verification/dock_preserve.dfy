// No accepted mutation can break a layout; only the size limits remain to be checked again.
module DockPreserve {
  import opened Basics
  import opened DockTypes
  import opened DockForest
  import opened DockValidate
  import opened DockGraft
  import opened DockMutation

  // ---- shared facts ----

  lemma TableUntouched(s: DockLayoutSnapshot, r: DockLayoutSnapshot)
    requires TableOk(s) && HasForest(s)
    requires r.mainRoot == s.mainRoot && r.floatingHosts == s.floatingHosts && r.nodes == s.nodes
    requires GroupIds(r.groups) == GroupIds(s.groups)
    ensures TableOk(r) && HasForest(r)
  {
    assert Roots(r) == Roots(s);
    var ts :| IsForest(s.nodes, Roots(s), ts);
    assert IsForest(r.nodes, Roots(r), ts);
  }

  // Rearranging panels without touching the table.
  lemma Rearranged(s: DockLayoutSnapshot, r: DockLayoutSnapshot)
    requires Structural(s) && Arranged(r) && ActiveKnown(r) && r.panels == s.panels
    requires r.mainRoot == s.mainRoot && r.floatingHosts == s.floatingHosts && r.nodes == s.nodes
    requires GroupIds(r.groups) == GroupIds(s.groups)
    ensures Structural(r)
  {
    TableUntouched(s, r);
    hide Arranged, TableOk, HasForest;
  }

  lemma PanelCountedOnce(panels: seq<DockPanel>, id: nat)
    requires UsableIds(PanelIds(panels)) && id in PanelIds(panels)
    ensures multiset(PanelIds(panels))[id := 0] + multiset{id} == multiset(PanelIds(panels))
  {
    NoDuplicatesMultiset(PanelIds(panels));
    assert id in multiset(PanelIds(panels));
    assert multiset(PanelIds(panels))[id] == 1;
  }

  lemma GroupPlacements(s: DockLayoutSnapshot, g: DockGroup, x: nat)
    requires g in s.groups && x in g.panels
    ensures x in Placements(s)
  {
    var i :| 0 <= i < |s.groups| && s.groups[i] == g;
    PlacedSplit(s.groups, i);
  }

  // ---- activate ----

  lemma {:induction false} ActivateInSame(groups: seq<DockGroup>, id: nat)
    ensures Placed(ActivateIn(groups, id)) == Placed(groups)
    ensures GroupIds(ActivateIn(groups, id)) == GroupIds(groups)
  {
    if groups == [] {
    } else {
      var k := |groups| - 1;
      ActivateInSame(groups[..k], id);
      assert ActivateIn(groups, id)[..k] == ActivateIn(groups[..k], id);
    }
  }

  lemma ActivateKeeps(s: DockLayoutSnapshot, id: nat)
    requires Structural(s) && id in PanelIds(s.panels)
    ensures Structural(Activated(s, id))
  {
    ActivateInSame(s.groups, id);
    ActivateArranged(s, id);
    hide Structural, Arranged;
    Rearranged(s, Activated(s, id));
  }

  lemma ActivateInAt(groups: seq<DockGroup>, id: nat)
    ensures |ActivateIn(groups, id)| == |groups|
    ensures forall i :: 0 <= i < |groups| ==>
              ActivateIn(groups, id)[i] == if id in groups[i].panels then groups[i].(active := Some(id)) else groups[i]
  {}

  lemma ActivateArranged(s: DockLayoutSnapshot, id: nat)
    requires Arranged(s)
    ensures Arranged(Activated(s, id))
  {
    hide Placed, ActivateIn;
    var r := Activated(s, id);
    ActivateInSame(s.groups, id);
    assert PanelsPartitioned(r);
    hide Placements, PanelsPartitioned, HiddenRolesOk;
    ActivateInAt(s.groups, id);
    forall g | g in r.groups ensures SelectionOk(g) && RolesOk(r.panels, g) {
      var i :| 0 <= i < |r.groups| && r.groups[i] == g;
      assert s.groups[i] in s.groups;
    }
  }

  // ---- close ----

  lemma {:induction false} FirstInGroupsPlaced(s: DockLayoutSnapshot, groups: seq<DockGroup>)
    requires GroupsOk(s) && forall g :: g in groups ==> g in s.groups
    ensures FirstInGroups(groups).Some? ==> FirstInGroups(groups).value in Placements(s)
  {
    if groups == [] {
    } else {
      var g := groups[0];
      assert g in groups && SelectionOk(g);
      if g.active.Some? {
        GroupPlacements(s, g, g.active.value);
      } else {
        FirstInGroupsPlaced(s, groups[1..]);
      }
    }
  }

  lemma FirstPlacedIsPlaced(s: DockLayoutSnapshot)
    requires GroupsOk(s)
    ensures FirstPlacedPanel(s).Some? ==> FirstPlacedPanel(s).value in Placements(s)
  {
    FirstInGroupsPlaced(s, s.groups);
    if s.autoHide != [] {
      assert HiddenPanels(s.autoHide)[0] == s.autoHide[0].panel;
    }
  }

  lemma WithoutKeepsDistinct(ids: seq<nat>, id: nat)
    requires UsableIds(ids)
    ensures UsableIds(Without(ids, id))
  {
    var rest := Without(ids, id);
    NoDuplicatesMultiset(ids);
    NoDuplicatesMultiset(rest);
    assert forall x :: multiset(rest)[x] <= multiset(ids)[x];
    SameMembers(rest, ids);
  }

  lemma CloseArranged(s: DockLayoutSnapshot, id: nat)
    requires Arranged(s)
    ensures Arranged(Detached(s, id).(panels := WithoutPanel(s.panels, id)))
  {
    var r := Detached(s, id).(panels := WithoutPanel(s.panels, id));
    DetachLeavesRest(s, id);
    WithoutPanelIds(s.panels, id);
    assert Placements(r) == Placements(Detached(s, id));
    assert GroupsOk(Detached(s, id));
  }

  lemma CloseActive(s: DockLayoutSnapshot, id: nat)
    requires PlacementOk(s) && UsableIds(PanelIds(s.panels))
    ensures ActiveKnown(Closed(s, id))
  {
    var c := Detached(s, id).(panels := WithoutPanel(s.panels, id));
    var r := Closed(s, id);
    CloseArranged(s, id);
    WithoutPanelIds(s.panels, id);
    FirstPlacedIsPlaced(c);
    hide Placements, Placed, GroupsOk, FirstPlacedPanel, WithoutPanel, PanelIds, Without;
    if s.activePanel == Some(id) {
      if r.activePanel.Some? {
        assert r.activePanel.value in multiset(Placements(c));
        assert r.activePanel.value in multiset(PanelIds(c.panels));
      }
    } else if s.activePanel.Some? {
      assert s.activePanel.value in multiset(PanelIds(s.panels));
      assert s.activePanel.value in multiset(PanelIds(c.panels));
    }
  }

  lemma CloseDistinct(s: DockLayoutSnapshot, id: nat)
    requires DistinctIds(s)
    ensures DistinctIds(Closed(s, id))
  {
    WithoutPanelIds(s.panels, id);
    WithoutKeepsDistinct(PanelIds(s.panels), id);
    DetachedGroupIds(s, id);
  }

  lemma DetachedGroupIds(s: DockLayoutSnapshot, id: nat)
    ensures GroupIds(Detached(s, id).groups) == GroupIds(s.groups)
  {
    var d := Detached(s, id);
    assert forall i :: 0 <= i < |d.groups| ==> d.groups[i].id == s.groups[i].id;
  }

  lemma ArrangedAnyActive(c: DockLayoutSnapshot, r: DockLayoutSnapshot)
    requires Arranged(c) && r.panels == c.panels && r.groups == c.groups && r.autoHide == c.autoHide
    ensures Arranged(r)
  {
    assert Placements(r) == Placements(c);
    hide Placements, SelectionOk, RolesOk;
  }

  lemma CloseKeeps(s: DockLayoutSnapshot, id: nat)
    requires Structural(s)
    ensures Structural(Closed(s, id))
  {
    var c := Detached(s, id).(panels := WithoutPanel(s.panels, id));
    var r := Closed(s, id);
    CloseArranged(s, id);
    CloseActive(s, id);
    CloseDistinct(s, id);
    DetachedGroupIds(s, id);
    TableUntouched(s, r);
    ArrangedAnyActive(c, r);
    hide Arranged, DistinctIds, TableOk, HasForest, ActiveKnown, FirstPlacedPanel, WithoutEntries, DetachFromAll;
  }

  // ---- auto-hide ----

  lemma HideKeeps(s: DockLayoutSnapshot, id: nat, edge: DockEdge)
    requires Structural(s) && id in PanelIds(s.panels)
    requires forall p :: p in s.panels && p.id == id ==> p.role == ToolPanel
    ensures Structural(Hidden(s, id, edge))
  {
    HideArranged(s, id, edge);
    DetachedGroupIds(s, id);
    hide Arranged, Structural;
    Rearranged(s, Hidden(s, id, edge));
  }

  lemma HidePlaced(s: DockLayoutSnapshot, id: nat, edge: DockEdge)
    ensures HiddenPanels(Hidden(s, id, edge).autoHide) == HiddenPanels(Detached(s, id).autoHide) + [id]
    ensures Placements(Hidden(s, id, edge)) == Placements(Detached(s, id)) + [id]
  {
    hide DetachFromAll, WithoutEntries, Placed, NextOrder, HiddenPanels;
    var d := Detached(s, id);
    HiddenSnoc(d.autoHide, DockAutoHideEntry(id, edge, NextOrder(d.autoHide, edge)));
    assert Placed(d.groups) + (HiddenPanels(d.autoHide) + [id]) == Placed(d.groups) + HiddenPanels(d.autoHide) + [id];
  }

  lemma HiddenSnoc(entries: seq<DockAutoHideEntry>, e: DockAutoHideEntry)
    ensures HiddenPanels(entries + [e]) == HiddenPanels(entries) + [e.panel]
  {}

  lemma OneMore(xs: seq<nat>, x: nat)
    ensures multiset(xs + [x]) == multiset(xs) + multiset{x}
  {}

  lemma HideArranged(s: DockLayoutSnapshot, id: nat, edge: DockEdge)
    requires Arranged(s) && UsableIds(PanelIds(s.panels)) && id in PanelIds(s.panels)
    requires forall p :: p in s.panels && p.id == id ==> p.role == ToolPanel
    ensures Arranged(Hidden(s, id, edge))
  {
    hide SelectionOk, RolesOk, Placements, Placed, DetachFromAll, WithoutEntries, HiddenPanels, PanelIds, UsableIds, NextOrder;
    DetachLeavesRest(s, id);
    PanelCountedOnce(s.panels, id);
    HidePlaced(s, id, edge);
    OneMore(Placements(Detached(s, id)), id);
  }

  // ---- move ----

  lemma InsertPlaced(groups: seq<DockGroup>, k: nat, id: nat, index: Option<nat>)
    requires k < |groups|
    ensures multiset(Placed(groups[k := InsertPanel(groups[k], id, index)])) == multiset(Placed(groups)) + multiset{id}
    ensures GroupIds(groups[k := InsertPanel(groups[k], id, index)]) == GroupIds(groups)
  {
    hide Placed, InsertPanel;
    var g := InsertPanel(groups[k], id, index);
    var after := groups[k := g];
    InsertedPanels(groups[k], id, index);
    PlacedSplit(groups, k);
    PlacedSplit(after, k);
    assert after[..k] == groups[..k] && after[k + 1..] == groups[k + 1..];
    MiddleGrows(Placed(groups[..k]), groups[k].panels, g.panels, Placed(groups[k + 1..]), id);
  }

  lemma InsertedPanels(g: DockGroup, id: nat, index: Option<nat>)
    ensures multiset(InsertPanel(g, id, index).panels) == multiset(g.panels) + multiset{id}
    ensures InsertPanel(g, id, index).id == g.id
  {
    var i := if index.Some? && index.value < |g.panels| then index.value else |g.panels|;
    assert g.panels == g.panels[..i] + g.panels[i..];
  }

  lemma MiddleGrows(a: seq<nat>, b: seq<nat>, c: seq<nat>, d: seq<nat>, x: nat)
    requires multiset(c) == multiset(b) + multiset{x}
    ensures multiset(a + c + d) == multiset(a + b + d) + multiset{x}
  {}

  lemma MoveKeeps(s: DockLayoutSnapshot, panel: DockPanel, k: nat, index: Option<nat>)
    requires Structural(s) && panel in s.panels && k < |s.groups| && s.groups[k].role == RoleFor(panel.role)
    ensures Structural(InsertInto(Detached(s, panel.id), panel.id, k, index))
  {
    PanelIdKnown(s.panels, panel);
    MoveArranged(s, panel, k, index);
    DetachedGroupIds(s, panel.id);
    InsertPlaced(Detached(s, panel.id).groups, k, panel.id, index);
    hide Arranged, Structural;
    Rearranged(s, InsertInto(Detached(s, panel.id), panel.id, k, index));
  }

  lemma MoveArranged(s: DockLayoutSnapshot, panel: DockPanel, k: nat, index: Option<nat>)
    requires Arranged(s) && UsableIds(PanelIds(s.panels)) && panel in s.panels
    requires k < |s.groups| && s.groups[k].role == RoleFor(panel.role)
    ensures Arranged(InsertInto(Detached(s, panel.id), panel.id, k, index))
  {
    var id := panel.id;
    var d := Detached(s, id);
    var r := InsertInto(d, id, k, index);
    PanelIdKnown(s.panels, panel);
    DetachLeavesRest(s, id);
    MoveGroupsOk(s, panel, k, index);
    PanelCountedOnce(s.panels, id);
    InsertPlaced(d.groups, k, id, index);
    hide GroupsOk, Placed, InsertPanel;
    assert multiset(Placements(r)) == multiset(Placements(d)) + multiset{id};
  }

  lemma PanelIdKnown(panels: seq<DockPanel>, p: DockPanel)
    requires p in panels
    ensures p.id in PanelIds(panels)
    ensures NoDuplicates(PanelIds(panels)) ==> forall q :: q in panels && q.id == p.id ==> q == p
  {
    var i :| 0 <= i < |panels| && panels[i] == p;
    assert PanelIds(panels)[i] == p.id;
    if NoDuplicates(PanelIds(panels)) { RoleAt(panels, i); }
  }

  lemma MoveGroupsOk(s: DockLayoutSnapshot, panel: DockPanel, k: nat, index: Option<nat>)
    requires UsableIds(PanelIds(s.panels)) && panel in s.panels && k < |s.groups| && s.groups[k].role == RoleFor(panel.role)
    requires GroupsOk(Detached(s, panel.id))
    ensures GroupsOk(InsertInto(Detached(s, panel.id), panel.id, k, index))
  {
    var d := Detached(s, panel.id);
    var r := InsertInto(d, panel.id, k, index);
    PanelIdKnown(s.panels, panel);
    forall g | g in r.groups ensures SelectionOk(g) && RolesOk(r.panels, g) {
      var i :| 0 <= i < |r.groups| && r.groups[i] == g;
      assert d.groups[i] in d.groups;
      if i == k {
        var before := d.groups[k];
        assert before.role == s.groups[k].role;
        assert multiset(g.panels) == multiset(before.panels) + multiset{panel.id};
        assert panel.id in multiset(g.panels);
        forall x | x in g.panels ensures x in before.panels || x == panel.id {
          assert x in multiset(g.panels);
          assert x in multiset(before.panels) + multiset{panel.id};
        }
      }
    }
  }

  // ---- a new group of its own ----

  lemma NewGroupIds(s: DockLayoutSnapshot, panel: DockPanel, group: nat)
    ensures GroupIds(InNewGroup(s, panel, group).groups) == GroupIds(s.groups) + [group]
  {
    DetachedGroupIds(s, panel.id);
  }

  lemma NewGroupPlaced(s: DockLayoutSnapshot, panel: DockPanel, group: nat)
    ensures multiset(Placements(InNewGroup(s, panel, group))) == multiset(Placements(Detached(s, panel.id))) + multiset{panel.id}
  {
    var d := Detached(s, panel.id);
    var w := InNewGroup(s, panel, group);
    assert w.groups[..|d.groups|] == d.groups;
    assert Placed(w.groups) == Placed(d.groups) + [panel.id];
  }

  lemma NewGroupGroupsOk(s: DockLayoutSnapshot, panel: DockPanel, group: nat)
    requires GroupsOk(Detached(s, panel.id)) && UsableIds(PanelIds(s.panels)) && panel in s.panels
    ensures GroupsOk(InNewGroup(s, panel, group))
  {
    var g := DockGroup(group, RoleFor(panel.role), [panel.id], Some(panel.id));
    PanelIdKnown(s.panels, panel);
    assert SelectionOk(g) && RolesOk(s.panels, g);
    hide SelectionOk, RolesOk;
    forall h | h in InNewGroup(s, panel, group).groups ensures SelectionOk(h) && RolesOk(s.panels, h) {
      assert h in Detached(s, panel.id).groups || h == g;
    }
  }

  lemma NewGroupArranged(s: DockLayoutSnapshot, panel: DockPanel, group: nat)
    requires Arranged(s) && UsableIds(PanelIds(s.panels)) && panel in s.panels
    ensures Arranged(InNewGroup(s, panel, group))
  {
    hide GroupsOk, Placements, DetachFromAll, WithoutEntries, UsableIds;
    PanelIdKnown(s.panels, panel);
    DetachLeavesRest(s, panel.id);
    NewGroupGroupsOk(s, panel, group);
    PanelCountedOnce(s.panels, panel.id);
    NewGroupPlaced(s, panel, group);
  }

  lemma LeafRowAdded(nodes: seq<DockNode>, id: nat, group: nat)
    ensures LeafGroups(nodes + [LeafRow(id, group)]) == LeafGroups(nodes) + [group]
    ensures NodeIds(nodes + [LeafRow(id, group)]) == NodeIds(nodes) + [id]
  {
    assert (nodes + [LeafRow(id, group)])[..|nodes|] == nodes;
  }

  // ---- float ----

  lemma {:induction false} AppendKeepsTree(nodes: seq<DockNode>, row: DockNode, id: nat, t: Tree)
    requires UsableIds(NodeIds(nodes + [row])) && Represents(nodes, id, t)
    ensures Represents(nodes + [row], id, t)
    decreases t
  {
    hide FindNode, UsableIds, NodeIds;
    var n := FindNode(nodes, id).value;
    AppendFinds(nodes, row, n);
    if t.Leaf? {
    } else {
      AppendKeepsTree(nodes, row, n.first, t.first);
      AppendKeepsTree(nodes, row, n.second, t.second);
    }
  }

  lemma AppendFinds(nodes: seq<DockNode>, row: DockNode, n: DockNode)
    requires UsableIds(NodeIds(nodes + [row])) && n in nodes
    ensures FindNode(nodes + [row], n.id) == Some(n)
  {
    assert n in nodes + [row];
    FindNodeUnique(nodes + [row], n);
  }

  lemma FloatForest(s: DockLayoutSnapshot, row: DockNode, host: DockFloatingHost, ts: seq<Tree>)
    requires UsableIds(NodeIds(s.nodes + [row])) && IsForest(s.nodes, Roots(s), ts)
    requires row.kind == GroupNode && host.root == row.id
    ensures var r := s.(nodes := s.nodes + [row], floatingHosts := s.floatingHosts + [host]);
            IsForest(r.nodes, Roots(r), ts + [Leaf(row.id, row.group)])
  {
    var r := s.(nodes := s.nodes + [row], floatingHosts := s.floatingHosts + [host]);
    var us := ts + [Leaf(row.id, row.group)];
    assert Roots(r) == Roots(s) + [row.id];
    assert NodeIds(r.nodes) == NodeIds(s.nodes) + [row.id];
    assert us[..|ts|] == ts;
    FindNodeUnique(r.nodes, row);
    hide FindNode, NodeIds, UsableIds, Roots;
    assert Represents(r.nodes, row.id, Leaf(row.id, row.group));
    forall i | 0 <= i < |us| ensures Represents(r.nodes, Roots(r)[i], us[i]) {
      if i < |ts| { AppendKeepsTree(s.nodes, row, Roots(s)[i], ts[i]); }
    }
  }

  lemma FloatTableOk(s: DockLayoutSnapshot, r: DockLayoutSnapshot, row: DockNode, host: DockFloatingHost)
    requires TableOk(s) && GroupIds(r.groups) == GroupIds(s.groups) + [row.group]
    requires row == LeafRow(row.id, row.group) && ValidPlacement(host.placement)
    requires r.nodes == s.nodes + [row] && r.floatingHosts == s.floatingHosts + [host]
    ensures TableOk(r)
  {
    LeafRowAdded(s.nodes, row.id, row.group);
  }

  lemma DistinctMore(s: DockLayoutSnapshot, r: DockLayoutSnapshot, group: nat, nodes: seq<nat>, hosts: seq<nat>)
    requires DistinctIds(s) && r.panels == s.panels
    requires GroupIds(r.groups) == GroupIds(s.groups) + [group] && group != 0 && group !in GroupIds(s.groups)
    requires NodeIds(r.nodes) == NodeIds(s.nodes) + nodes && UsableIds(NodeIds(r.nodes))
    requires HostIds(r.floatingHosts) == HostIds(s.floatingHosts) + hosts && UsableIds(HostIds(r.floatingHosts))
    ensures DistinctIds(r)
  {}

  lemma FloatHasForest(s: DockLayoutSnapshot, r: DockLayoutSnapshot, row: DockNode, host: DockFloatingHost)
    requires HasForest(s) && UsableIds(NodeIds(s.nodes + [row])) && row.kind == GroupNode && host.root == row.id
    requires r.mainRoot == s.mainRoot && r.nodes == s.nodes + [row] && r.floatingHosts == s.floatingHosts + [host]
    ensures HasForest(r)
  {
    var ts :| IsForest(s.nodes, Roots(s), ts);
    FloatForest(s, row, host, ts);
    assert Roots(s.(nodes := s.nodes + [row], floatingHosts := s.floatingHosts + [host])) == Roots(r);
  }

  lemma FloatDistinct(s: DockLayoutSnapshot, r: DockLayoutSnapshot, row: DockNode, host: DockFloatingHost)
    requires DistinctIds(s) && r.panels == s.panels && r.nodes == s.nodes + [row] && r.floatingHosts == s.floatingHosts + [host]
    requires GroupIds(r.groups) == GroupIds(s.groups) + [row.group] && row.group != 0 && row.group !in GroupIds(s.groups)
    requires row.id != 0 && row.id !in NodeIds(s.nodes) && host.id != 0 && host.id !in HostIds(s.floatingHosts)
    ensures DistinctIds(r) && UsableIds(NodeIds(s.nodes + [row]))
  {
    assert NodeIds(r.nodes) == NodeIds(s.nodes) + [row.id];
    assert HostIds(r.floatingHosts) == HostIds(s.floatingHosts) + [host.id];
    DistinctMore(s, r, row.group, [row.id], [host.id]);
  }

  lemma FloatKeeps(s: DockLayoutSnapshot, panel: DockPanel, m: DockMutation)
    requires Structural(s) && panel in s.panels
    requires m.newGroup != 0 && m.newGroup !in GroupIds(s.groups)
    requires m.newGroupNode != 0 && m.newGroupNode !in NodeIds(s.nodes)
    requires Floated(s, panel, m).Accepted?
    ensures Structural(Floated(s, panel, m).snapshot)
  {
    hide HasForest, TableOk, Arranged, DetachFromAll, WithoutEntries, UsableIds, NodeIds, GroupIds, PanelIds;
    var w := InNewGroup(s, panel, m.newGroup);
    var row := LeafRow(m.newGroupNode, m.newGroup);
    var host := DockFloatingHost(m.newFloatingHost, m.newGroupNode, m.floatingPlacement);
    var r := Floated(s, panel, m).snapshot;
    NewGroupArranged(s, panel, m.newGroup);
    NewGroupIds(s, panel, m.newGroup);
    PanelIdKnown(s.panels, panel);
    FloatDistinct(s, r, row, host);
    FloatHasForest(s, r, row, host);
    FloatTableOk(s, r, row, host);
    ArrangedAnyActive(w, r);
    hide DistinctIds;
  }

  // ---- split ----

  lemma {:induction false} RedirectKeepsGroups(nodes: seq<DockNode>, from: nat, to: nat)
    ensures LeafGroups(RedirectRows(nodes, from, to)) == LeafGroups(nodes)
  {
    if nodes == [] {
    } else {
      var k := |nodes| - 1;
      RedirectKeepsGroups(nodes[..k], from, to);
      assert RedirectRows(nodes, from, to)[..k] == RedirectRows(nodes[..k], from, to);
    }
  }

  lemma GraftedLeafGroups(nodes: seq<DockNode>, groupNode: nat, group: nat, target: nat, splitNode: nat, edge: DockEdge, ratio: real)
    ensures LeafGroups(RedirectRows(nodes, target, splitNode) + [LeafRow(groupNode, group)] +
                       [SplitRow(splitNode, groupNode, target, edge, ratio)]) == LeafGroups(nodes) + [group]
  {
    var redirected := RedirectRows(nodes, target, splitNode);
    var rows := redirected + [LeafRow(groupNode, group)];
    RedirectKeepsGroups(nodes, target, splitNode);
    LeafRowAdded(redirected, groupNode, group);
    assert (rows + [SplitRow(splitNode, groupNode, target, edge, ratio)])[..|rows|] == rows;
  }

  lemma GraftKeepsFields(s: DockLayoutSnapshot, groupNode: nat, group: nat, target: nat, splitNode: nat, edge: DockEdge, ratio: real)
    requires (forall n :: n in s.nodes ==> NodeFieldsOk(n)) && ValidRatio(ratio)
    ensures forall n :: n in GraftedSnapshot(s, groupNode, group, target, splitNode, edge, ratio).nodes ==> NodeFieldsOk(n)
  {
    var redirected := RedirectRows(s.nodes, target, splitNode);
    forall n | n in redirected ensures NodeFieldsOk(n) {
      var i :| 0 <= i < |redirected| && redirected[i] == n;
      assert s.nodes[i] in s.nodes;
    }
  }

  lemma GraftKeepsHosts(hosts: seq<DockFloatingHost>, from: nat, to: nat)
    ensures HostIds(RedirectHosts(hosts, from, to)) == HostIds(hosts)
    ensures (forall h :: h in hosts ==> ValidPlacement(h.placement)) ==>
            forall h :: h in RedirectHosts(hosts, from, to) ==> ValidPlacement(h.placement)
  {
    forall h | h in RedirectHosts(hosts, from, to) && (forall g :: g in hosts ==> ValidPlacement(g.placement))
      ensures ValidPlacement(h.placement)
    {
      var i :| 0 <= i < |hosts| && RedirectHosts(hosts, from, to)[i] == h;
      assert hosts[i] in hosts;
    }
  }

  lemma GraftHasForest(w: DockLayoutSnapshot, groupNode: nat, group: nat, target: nat, splitNode: nat, edge: DockEdge, ratio: real)
    requires UsableIds(NodeIds(w.nodes)) && HasForest(w) && FreshGraft(w, groupNode, target, splitNode)
    ensures var r := GraftedSnapshot(w, groupNode, group, target, splitNode, edge, ratio);
            && GraftTable(w, groupNode, group, target, splitNode, edge, ratio) == Some(r)
            && HasForest(r)
            && NodeIds(r.nodes) == NodeIds(w.nodes) + [groupNode, splitNode]
            && UsableIds(NodeIds(r.nodes))
  {
    var ts :| IsForest(w.nodes, Roots(w), ts);
    GraftTableResult(w, groupNode, group, target, splitNode, edge, ratio, ts);
    GraftedTable(w, groupNode, group, target, splitNode, edge, ratio);
    hide IsForest, Grafted, FreshGraft, GraftTable, GraftedSnapshot, NodeIds, UsableIds, Roots;
    GraftRefines(w, groupNode, group, target, splitNode, edge, ratio, ts);
  }

  lemma GraftDistinct(s: DockLayoutSnapshot, w: DockLayoutSnapshot, groupNode: nat, group: nat, target: nat, splitNode: nat,
                      edge: DockEdge, ratio: real)
    requires DistinctIds(s) && w.panels == s.panels && w.floatingHosts == s.floatingHosts && w.nodes == s.nodes
    requires GroupIds(w.groups) == GroupIds(s.groups) + [group] && group != 0 && group !in GroupIds(s.groups)
    requires var r := GraftedSnapshot(w, groupNode, group, target, splitNode, edge, ratio);
             NodeIds(r.nodes) == NodeIds(w.nodes) + [groupNode, splitNode] && UsableIds(NodeIds(r.nodes))
    ensures DistinctIds(GraftedSnapshot(w, groupNode, group, target, splitNode, edge, ratio))
  {
    var r := GraftedSnapshot(w, groupNode, group, target, splitNode, edge, ratio);
    GraftKeepsHosts(w.floatingHosts, target, splitNode);
    assert HostIds(r.floatingHosts) == HostIds(s.floatingHosts) + [];
    DistinctMore(s, r, group, [groupNode, splitNode], []);
  }

  // A layout grafted with one more group, whichever operation asked for it, is still sound.
  lemma GraftKeeps(s: DockLayoutSnapshot, w: DockLayoutSnapshot, groupNode: nat, group: nat, target: nat, splitNode: nat,
                   edge: DockEdge, ratio: real)
    requires Structural(s) && Arranged(w) && ValidRatio(ratio)
    requires w == s.(groups := w.groups, autoHide := w.autoHide, activePanel := w.activePanel) && ActiveKnown(w)
    requires GroupIds(w.groups) == GroupIds(s.groups) + [group] && group != 0 && group !in GroupIds(s.groups)
    requires FreshGraft(s, groupNode, target, splitNode)
    ensures GraftTable(w, groupNode, group, target, splitNode, edge, ratio) ==
            Some(GraftedSnapshot(w, groupNode, group, target, splitNode, edge, ratio))
    ensures Structural(GraftedSnapshot(w, groupNode, group, target, splitNode, edge, ratio))
  {
    var r := GraftedSnapshot(w, groupNode, group, target, splitNode, edge, ratio);
    assert HasForest(w) by { assert Roots(w) == Roots(s); }
    hide HasForest, TableOk, Arranged, GraftTable, NodeIds, UsableIds, Roots;
    GraftHasForest(w, groupNode, group, target, splitNode, edge, ratio);
    GraftDistinct(s, w, groupNode, group, target, splitNode, edge, ratio);
    GraftTableOk(s, w, groupNode, group, target, splitNode, edge, ratio);
    ArrangedAnyActive(w, r);
    hide DistinctIds, RedirectRows, RedirectHosts;
  }

  lemma GraftTableOk(s: DockLayoutSnapshot, w: DockLayoutSnapshot, groupNode: nat, group: nat, target: nat, splitNode: nat,
                     edge: DockEdge, ratio: real)
    requires TableOk(s) && ValidRatio(ratio) && w.nodes == s.nodes && w.floatingHosts == s.floatingHosts
    requires GroupIds(w.groups) == GroupIds(s.groups) + [group]
    ensures TableOk(GraftedSnapshot(w, groupNode, group, target, splitNode, edge, ratio))
  {
    GraftKeepsFields(w, groupNode, group, target, splitNode, edge, ratio);
    GraftedLeafGroups(w.nodes, groupNode, group, target, splitNode, edge, ratio);
    GraftKeepsHosts(w.floatingHosts, target, splitNode);
  }

  lemma NoReferenceToFresh(s: DockLayoutSnapshot, row: DockNode, id: nat, to: nat)
    requires InDegreeOne(s.nodes, Roots(s)) && id !in NodeIds(s.nodes) && row.kind == GroupNode
    ensures ReplaceFirst(s.(nodes := s.nodes + [row]), id, to) == None
  {
    assert (multiset(Roots(s)) + ChildLinks(s.nodes))[id] == multiset(NodeIds(s.nodes))[id] == 0;
    RootCounts(s, id);
    NoLinksNoReference(s.nodes, id);
    NoParent(s.nodes + [row], id);
  }

  lemma NoParent(nodes: seq<DockNode>, id: nat)
    requires forall n :: n in nodes ==> !Refers(n, id)
    ensures FirstParent(nodes, id) == None
  {
    assert forall k :: 0 <= k < |nodes| ==> nodes[k] in nodes;
  }

  // An accepted split found its target among the rows that were there before.
  lemma NewGroupKeepsTable(s: DockLayoutSnapshot, panel: DockPanel, group: nat)
    ensures InNewGroup(s, panel, group).nodes == s.nodes && Roots(InNewGroup(s, panel, group)) == Roots(s)
  {}

  lemma GraftNeedsReference(w: DockLayoutSnapshot, m: DockMutation, target: nat)
    ensures GraftTable(w, m.newGroupNode, m.newGroup, target, m.newSplitNode, m.edge, m.splitRatio).Some? <==>
            ReplaceFirst(w.(nodes := w.nodes + [LeafRow(m.newGroupNode, m.newGroup)]), target, m.newSplitNode).Some?
  {}

  lemma SplitTarget(s: DockLayoutSnapshot, panel: DockPanel, m: DockMutation) returns (target: nat)
    requires DistinctIds(s) && HasForest(s)
    requires m.newGroupNode != 0 && m.newGroupNode !in NodeIds(s.nodes)
    requires SplitOff(s, panel, m).Accepted?
    ensures FreshGraft(s, m.newGroupNode, target, m.newSplitNode) && ValidRatio(m.splitRatio)
    ensures exists n :: n in s.nodes && n.id == target && n.kind == GroupNode && n.group == m.targetGroup
    ensures var w := InNewGroup(s, panel, m.newGroup);
            var r := GraftTable(w, m.newGroupNode, m.newGroup, target, m.newSplitNode, m.edge, m.splitRatio);
            r.Some? && SplitOff(s, panel, m) == Accepted(r.value.(activePanel := Some(panel.id)))
  {
    hide ReplaceFirst, GraftTable, HasForest, Detached, FindNode, InDegreeOne;
    var w := InNewGroup(s, panel, m.newGroup);
    NewGroupKeepsTable(s, panel, m.newGroup);
    var row := LeafRow(m.newGroupNode, m.newGroup);
    var rows := s.nodes + [row];
    target := TargetRow(rows, m.targetGroup).value;
    var n :| n in rows && n.id == target && n.kind == GroupNode && n.group == m.targetGroup;
    assert NodeIds(rows) == NodeIds(s.nodes) + [m.newGroupNode];
    if target == m.newGroupNode {
      ForestLinks(s);
      NoReferenceToFresh(w, row, target, m.newSplitNode);
      GraftNeedsReference(w, m, target);
      assert false;
    }
    assert n in s.nodes;
  }

  lemma SplitKeeps(s: DockLayoutSnapshot, panel: DockPanel, m: DockMutation)
    requires Structural(s) && panel in s.panels
    requires m.newGroup != 0 && m.newGroup !in GroupIds(s.groups)
    requires m.newGroupNode != 0 && m.newGroupNode !in NodeIds(s.nodes)
    requires SplitOff(s, panel, m).Accepted?
    ensures Structural(SplitOff(s, panel, m).snapshot)
  {
    hide HasForest, TableOk, Arranged, SplitOff, FreshGraft, GraftTable, UsableIds, NodeIds, PanelIds, GroupIds;
    var target := SplitTarget(s, panel, m);
    var w := InNewGroup(s, panel, m.newGroup);
    NewGroupArranged(s, panel, m.newGroup);
    NewGroupIds(s, panel, m.newGroup);
    PanelIdKnown(s.panels, panel);
    var v := w.(activePanel := Some(panel.id));
    ArrangedAnyActive(w, v);
    GraftKeeps(s, v, m.newGroupNode, m.newGroup, target, m.newSplitNode, m.edge, m.splitRatio);
    GraftAnyActive(w, m.newGroupNode, m.newGroup, target, m.newSplitNode, m.edge, m.splitRatio, Some(panel.id));
  }

  lemma GraftAnyActive(w: DockLayoutSnapshot, groupNode: nat, group: nat, target: nat, splitNode: nat, edge: DockEdge,
                       ratio: real, active: Option<nat>)
    requires GraftTable(w, groupNode, group, target, splitNode, edge, ratio).Some?
    ensures GraftTable(w.(activePanel := active), groupNode, group, target, splitNode, edge, ratio) ==
            Some(GraftTable(w, groupNode, group, target, splitNode, edge, ratio).value.(activePanel := active))
  {}

  // ---- the theorems ----

  // Whatever is accepted leaves a sound layout.
  lemma AcceptedStaysSound(s: DockLayoutSnapshot, m: DockMutation)
    requires Structural(s) && Apply(s, m).Accepted?
    ensures Structural(Apply(s, m).snapshot)
  {
    hide Structural, Floated, SplitOff, Activated, Closed, Hidden, InsertInto;
    var panel := FindPanel(s.panels, m.panel).value;
    assert UsableIds(PanelIds(s.panels)) by { StructuralIds(s); }
    PanelIdKnown(s.panels, panel);
    match m.kind
    case Activate => ActivateKeeps(s, m.panel);
    case ClosePanel => CloseKeeps(s, m.panel);
    case AutoHide => HideKeeps(s, m.panel, m.edge);
    case MoveToGroup => MoveKeeps(s, panel, IndexOf(GroupIds(s.groups), m.targetGroup).value, m.targetIndex);
    case FloatPanel => FloatKeeps(s, panel, m);
    case SplitToGroup => SplitKeeps(s, panel, m);
  }

  lemma StructuralIds(s: DockLayoutSnapshot)
    requires Structural(s)
    ensures DistinctIds(s) && |s.autoHide| <= |s.panels|
  {
    SameCountsSameLength(Placements(s), PanelIds(s.panels));
  }

  // What a caller can check beforehand: is there room for the rows the mutation adds?
  predicate RoomFor(s: DockLayoutSnapshot, m: DockMutation) {
    match m.kind
    case SplitToGroup => |s.groups| < MAX_GROUPS && |s.nodes| + 2 <= MAX_NODES
    case FloatPanel => |s.groups| < MAX_GROUPS && |s.nodes| < MAX_NODES && |s.floatingHosts| < MAX_FLOATING_HOSTS
    case _ => true
  }

  lemma GraftSizes(w: DockLayoutSnapshot, groupNode: nat, group: nat, target: nat, splitNode: nat, edge: DockEdge, ratio: real)
    ensures var r := GraftTable(w, groupNode, group, target, splitNode, edge, ratio);
            r.Some? ==> |r.value.nodes| == |w.nodes| + 2 && |r.value.floatingHosts| == |w.floatingHosts| &&
                        r.value.panels == w.panels && r.value.groups == w.groups && r.value.autoHide == w.autoHide
  {}

  ghost predicate Grew(s: DockLayoutSnapshot, r: DockLayoutSnapshot, groups: nat, nodes: nat, hosts: nat) {
    && |r.panels| <= |s.panels|
    && (forall p :: p in r.panels ==> p in s.panels)
    && |r.groups| == |s.groups| + groups
    && |r.nodes| == |s.nodes| + nodes
    && |r.floatingHosts| == |s.floatingHosts| + hosts
  }

  lemma SplitSizes(s: DockLayoutSnapshot, panel: DockPanel, m: DockMutation)
    requires SplitOff(s, panel, m).Accepted?
    ensures Grew(s, SplitOff(s, panel, m).snapshot, 1, 2, 0)
  {
    hide GraftTable, ReplaceFirst;
    var w := InNewGroup(s, panel, m.newGroup);
    var rows := w.nodes + [LeafRow(m.newGroupNode, m.newGroup)];
    var target := TargetRow(rows, m.targetGroup).value;
    GraftSizes(w, m.newGroupNode, m.newGroup, target, m.newSplitNode, m.edge, m.splitRatio);
  }

  lemma FloatedSizes(s: DockLayoutSnapshot, panel: DockPanel, m: DockMutation)
    requires Floated(s, panel, m).Accepted?
    ensures Grew(s, Floated(s, panel, m).snapshot, 1, 1, 1)
  {}

  lemma MovedSizes(s: DockLayoutSnapshot, id: nat, k: nat, index: Option<nat>)
    requires k < |s.groups|
    ensures Grew(s, InsertInto(Detached(s, id), id, k, index), 0, 0, 0)
  {}

  lemma KeptSizes(s: DockLayoutSnapshot, id: nat, edge: DockEdge)
    ensures Grew(s, Activated(s, id), 0, 0, 0)
    ensures Grew(s, Closed(s, id), 0, 0, 0)
    ensures Grew(s, Hidden(s, id, edge), 0, 0, 0)
  {}

  lemma AcceptedSizes(s: DockLayoutSnapshot, m: DockMutation)
    requires Apply(s, m).Accepted?
    ensures Grew(s, Apply(s, m).snapshot,
                 if m.kind in {SplitToGroup, FloatPanel} then 1 else 0,
                 if m.kind == SplitToGroup then 2 else if m.kind == FloatPanel then 1 else 0,
                 if m.kind == FloatPanel then 1 else 0)
  {
    hide SplitOff, Floated, InsertInto, Detached, Activated, Hidden, Closed;
    var panel := FindPanel(s.panels, m.panel).value;
    match m.kind
    case SplitToGroup => SplitSizes(s, panel, m);
    case FloatPanel => FloatedSizes(s, panel, m);
    case MoveToGroup => MovedSizes(s, m.panel, IndexOf(GroupIds(s.groups), m.targetGroup).value, m.targetIndex);
    case _ => KeptSizes(s, m.panel, m.edge);
  }

  // Re-validating a proposal can fail only for want of room, never because the mutation broke the layout.
  lemma ProposalFailsOnlyByCaps(s: DockLayoutSnapshot, m: DockMutation)
    requires ValidSnapshot(s) && Apply(s, m).Accepted?
    ensures ValidSnapshot(Apply(s, m).snapshot) <==> RoomFor(s, m)
  {
    hide Apply, Structural;
    AcceptedStaysSound(s, m);
    AcceptedSizes(s, m);
    StructuralIds(Apply(s, m).snapshot);
  }

  // ---- refinement of the split tree ----

  lemma LeafRowsApart(nodes: seq<DockNode>, i: nat, j: nat)
    requires i < j < |nodes| && nodes[i].kind == GroupNode && nodes[j].kind == GroupNode
    requires NoDuplicates(LeafGroups(nodes))
    ensures nodes[i].group != nodes[j].group
  {
    LeafGroupsSplit(nodes, i);
    LeafGroupsSplit(nodes, j);
    var before, upTo := LeafGroups(nodes[..j]), LeafGroups(nodes[..i + 1]);
    LeafGroupsSplit(nodes[..j], i);
    assert nodes[..j][..i + 1] == nodes[..i + 1];
    assert upTo <= before;
    var a, b := |upTo| - 1, |before|;
    assert LeafGroups(nodes)[a] == upTo[a] == nodes[i].group;
    assert LeafGroups(nodes)[b] == LeafGroups(nodes[..j + 1])[b] == nodes[j].group;
  }

  lemma OneRowPerGroup(s: DockLayoutSnapshot, row: DockNode)
    requires Structural(s) && row in s.nodes && row.kind == GroupNode
    ensures forall n :: n in s.nodes && n.kind == GroupNode ==> (n.id == row.id <==> n.group == row.group)
  {
    NoDuplicatesMultiset(GroupIds(s.groups));
    NoDuplicatesMultiset(LeafGroups(s.nodes));
    assert NoDuplicates(LeafGroups(s.nodes));
    var k :| 0 <= k < |s.nodes| && s.nodes[k] == row;
    forall n | n in s.nodes && n.kind == GroupNode ensures n.id == row.id <==> n.group == row.group {
      var i :| 0 <= i < |s.nodes| && s.nodes[i] == n;
      if i < k {
        LeafRowsApart(s.nodes, i, k);
        assert NodeIds(s.nodes)[i] != NodeIds(s.nodes)[k];
      } else if k < i {
        LeafRowsApart(s.nodes, k, i);
        assert NodeIds(s.nodes)[k] != NodeIds(s.nodes)[i];
      }
    }
  }

  lemma {:induction false} LeafShowsGroup(t: Tree, target: nat, group: nat)
    requires NamesGroup(t, target, group) && LeafIn(t, target)
    ensures multiset(Leaves(t))[group] == TreeIds(t)[target]
  {
    if t.Leaf? {
    } else {
      LeafShowsGroup(t.first, target, group);
      LeafShowsGroup(t.second, target, group);
    }
  }

  // One leaf of the forest shows the group: the one with id target, in tree number `at`.
  ghost predicate ShownOnce(ts: seq<Tree>, at: nat, target: nat, group: nat) {
    && at < |ts| && NamesGroup(ts[at], target, group)
    && multiset(Leaves(ts[at]))[group] == 1 && TreeIds(ts[at])[target] == 1
    && forall i :: 0 <= i < |ts| && i != at ==> group !in Leaves(ts[i])
  }

  lemma {:induction false} OneTreeHas(ts: seq<Tree>, x: nat) returns (at: nat)
    requires ForestIds(ts)[x] == 1
    ensures at < |ts| && TreeIds(ts[at])[x] == 1
    ensures forall i :: 0 <= i < |ts| && i != at ==> TreeIds(ts[i])[x] == 0
  {
    hide TreeIds;
    at := |ts| - 1;
    if TreeIds(ts[at])[x] == 1 {
      NoTreeHas(ts[..at], x);
      assert forall i :: 0 <= i < at ==> ts[i] == ts[..at][i];
    } else {
      var rest := ts[..at];
      at := OneTreeHas(rest, x);
      assert forall i :: 0 <= i < |rest| ==> ts[i] == rest[i];
    }
  }

  lemma {:induction false} NoTreeHas(ts: seq<Tree>, x: nat)
    requires ForestIds(ts)[x] == 0
    ensures forall i :: 0 <= i < |ts| ==> TreeIds(ts[i])[x] == 0
  {
    hide TreeIds;
    if ts == [] {
    } else {
      var rest := ts[..|ts| - 1];
      NoTreeHas(rest, x);
      assert forall i :: 0 <= i < |rest| ==> ts[i] == rest[i];
    }
  }

  lemma ShownInOneTree(s: DockLayoutSnapshot, row: DockNode, ts: seq<Tree>) returns (at: nat)
    requires Structural(s) && IsForest(s.nodes, Roots(s), ts) && row in s.nodes && row.kind == GroupNode
    ensures ShownOnce(ts, at, row.id, row.group)
  {
    hide Structural, Leaves, TreeIds, ForestIds, NodeIds, Roots, NamesGroup, LeafIn;
    assert UsableIds(NodeIds(s.nodes)) by { StructuralIds(s); }
    OneRowPerGroup(s, row);
    FindNodeUnique(s.nodes, row);
    hide FindNode, Represents;
    OneId(s.nodes, row);
    at := OneTreeHas(ts, row.id);
    forall i | 0 <= i < |ts|
      ensures NamesGroup(ts[i], row.id, row.group) && multiset(Leaves(ts[i]))[row.group] == TreeIds(ts[i])[row.id]
    {
      RepresentedNames(s.nodes, Roots(s)[i], ts[i], row.id, row.group);
      LeafRowIsLeaf(s.nodes, Roots(s)[i], ts[i], row.id);
      LeafShowsGroup(ts[i], row.id, row.group);
    }
    forall i | 0 <= i < |ts| && i != at ensures row.group !in Leaves(ts[i]) {
      assert multiset(Leaves(ts[i]))[row.group] == 0;
    }
  }

  lemma OneId(nodes: seq<DockNode>, row: DockNode)
    requires UsableIds(NodeIds(nodes)) && row in nodes
    ensures multiset(NodeIds(nodes))[row.id] == 1
  {
    NoDuplicatesMultiset(NodeIds(nodes));
    var k :| 0 <= k < |nodes| && nodes[k] == row;
    assert NodeIds(nodes)[k] == row.id;
  }

  // The forest after a graft: every tree keeps its leaves in order, the new group appears right before or after
  // the target, and trees that do not show the target are untouched.
  ghost predicate InsertedBeside(before: seq<Tree>, after: seq<Tree>, targetGroup: nat, group: nat, edge: DockEdge) {
    && |after| == |before|
    && (forall i :: 0 <= i < |after| ==> Leaves(after[i]) == InsertBeside(Leaves(before[i]), targetGroup, group, NewFirst(edge)))
    && (forall i :: 0 <= i < |after| ==> targetGroup !in Leaves(before[i]) ==> after[i] == before[i])
  }

  lemma GraftInserts(s: DockLayoutSnapshot, row: DockNode, ts: seq<Tree>, groupNode: nat, group: nat, splitNode: nat,
                     edge: DockEdge, ratio: real)
    requires Structural(s) && IsForest(s.nodes, Roots(s), ts) && row in s.nodes && row.kind == GroupNode
    ensures InsertedBeside(ts, GraftAll(ts, row.id, groupNode, group, splitNode, edge, ratio), row.group, group, edge)
  {
    hide Structural, Leaves, Graft, TreeIds, NodeIds, Roots, NamesGroup, LeafIn, InsertBeside;
    assert UsableIds(NodeIds(s.nodes)) by { StructuralIds(s); }
    OneRowPerGroup(s, row);
    FindNodeUnique(s.nodes, row);
    hide FindNode, Represents;
    forall i | 0 <= i < |ts|
      ensures Leaves(Graft(ts[i], row.id, groupNode, group, splitNode, edge, ratio)) ==
              InsertBeside(Leaves(ts[i]), row.group, group, NewFirst(edge))
      ensures row.group !in Leaves(ts[i]) ==> Graft(ts[i], row.id, groupNode, group, splitNode, edge, ratio) == ts[i]
    {
      RepresentedNames(s.nodes, Roots(s)[i], ts[i], row.id, row.group);
      LeafRowIsLeaf(s.nodes, Roots(s)[i], ts[i], row.id);
      GraftOrder(ts[i], row.id, row.group, groupNode, group, splitNode, edge, ratio);
      LeafShowsGroup(ts[i], row.id, row.group);
      if row.group !in Leaves(ts[i]) { GraftElsewhere(ts[i], row.id, groupNode, group, splitNode, edge, ratio); }
    }
  }

  // An accepted split replaces the one leaf that shows the target by a split of that leaf and the new group, on the side
  // and with the ratio asked for. Everything else in the trees stays.
  lemma SplitRefinesInsertion(s: DockLayoutSnapshot, m: DockMutation, ts: seq<Tree>)
    returns (target: nat, at: nat, us: seq<Tree>)
    requires Structural(s) && IsForest(s.nodes, Roots(s), ts)
    requires m.kind == SplitToGroup && Apply(s, m).Accepted?
    ensures ShownOnce(ts, at, target, m.targetGroup)
    ensures us == GraftAll(ts, target, m.newGroupNode, m.newGroup, m.newSplitNode, m.edge, m.splitRatio)
    ensures var r := Apply(s, m).snapshot;
            IsForest(r.nodes, Roots(r), us) && InsertedBeside(ts, us, m.targetGroup, m.newGroup, m.edge)
  {
    var panel := FindPanel(s.panels, m.panel).value;
    assert Apply(s, m) == SplitOff(s, panel, m);
    hide Structural, IsForest, SplitOff, FreshGraft, InsertedBeside, GraftTable, Apply, NodeIds, FindPanel, ShownOnce;
    assert DistinctIds(s) by { StructuralIds(s); }
    assert HasForest(s);
    target := SplitTarget(s, panel, m);
    var row :| row in s.nodes && row.id == target && row.kind == GroupNode && row.group == m.targetGroup;
    var w := InNewGroup(s, panel, m.newGroup);
    assert Roots(w) == Roots(s);
    GraftRefines(w, m.newGroupNode, m.newGroup, target, m.newSplitNode, m.edge, m.splitRatio, ts);
    at := ShownInOneTree(s, row, ts);
    us := GraftAll(ts, target, m.newGroupNode, m.newGroup, m.newSplitNode, m.edge, m.splitRatio);
    GraftInserts(s, row, ts, m.newGroupNode, m.newGroup, m.newSplitNode, m.edge, m.splitRatio);
    var g := GraftTable(w, m.newGroupNode, m.newGroup, target, m.newSplitNode, m.edge, m.splitRatio).value;
    assert Roots(Apply(s, m).snapshot) == Roots(g);
  }

  // Every other kind leaves the existing trees alone; floating adds a one-leaf tree.
  lemma OtherKindsKeepTrees(s: DockLayoutSnapshot, m: DockMutation, ts: seq<Tree>)
    requires Structural(s) && IsForest(s.nodes, Roots(s), ts)
    requires m.kind != SplitToGroup && Apply(s, m).Accepted?
    ensures var r := Apply(s, m).snapshot;
            IsForest(r.nodes, Roots(r), if m.kind == FloatPanel then ts + [Leaf(m.newGroupNode, m.newGroup)] else ts)
  {
    hide Apply, Structural, IsForest, UsableIds;
    var r := Apply(s, m).snapshot;
    TableEdits(s, m);
    if m.kind == FloatPanel {
      var row := LeafRow(m.newGroupNode, m.newGroup);
      var host := DockFloatingHost(m.newFloatingHost, m.newGroupNode, m.floatingPlacement);
      StructuralIds(s);
      FreshRowIds(s.nodes, row);
      FloatForest(s, row, host, ts);
      assert Roots(s.(nodes := s.nodes + [row], floatingHosts := s.floatingHosts + [host])) == Roots(r);
    } else {
      assert Roots(r) == Roots(s);
    }
  }

  lemma FreshRowIds(nodes: seq<DockNode>, row: DockNode)
    requires UsableIds(NodeIds(nodes)) && row.id != 0 && row.id !in NodeIds(nodes)
    ensures UsableIds(NodeIds(nodes + [row]))
  {
    assert NodeIds(nodes + [row]) == NodeIds(nodes) + [row.id];
  }

  // The only table edit outside a split is the row and host a float adds.
  lemma TableEdits(s: DockLayoutSnapshot, m: DockMutation)
    requires m.kind != SplitToGroup && Apply(s, m).Accepted?
    ensures var r := Apply(s, m).snapshot;
            r.mainRoot == s.mainRoot &&
            if m.kind == FloatPanel then
              && r.nodes == s.nodes + [LeafRow(m.newGroupNode, m.newGroup)]
              && r.floatingHosts == s.floatingHosts + [DockFloatingHost(m.newFloatingHost, m.newGroupNode, m.floatingPlacement)]
              && m.newGroupNode != 0 && m.newGroupNode !in NodeIds(s.nodes)
            else
              r.nodes == s.nodes && r.floatingHosts == s.floatingHosts
  {
    hide SplitOff;
  }

  // ---- what a mutation leaves alone ----

  lemma WithoutTwice(xs: seq<nat>, x: nat)
    ensures Without(Without(xs, x), x) == Without(xs, x)
  {
    assert x !in Without(xs, x) by { if x in Without(xs, x) { assert x in multiset(Without(xs, x)); } }
  }

  lemma WithoutMiddle(a: seq<nat>, b: seq<nat>, x: nat)
    ensures Without(a + [x] + b, x) == Without(a + b, x)
  {
    var one := Without([x], x);
    assert [x][1..] == [] && one == [];
    hide Without;
    WithoutConcat(a + [x], b, x);
    WithoutConcat(a, [x], x);
    WithoutConcat(a, b, x);
  }

  lemma WithoutInserted(xs: seq<nat>, i: nat, x: nat)
    requires i <= |xs|
    ensures Without(InsertAt(xs, i, x), x) == Without(xs, x)
  {
    WithoutMiddle(xs[..i], xs[i..], x);
    assert xs == xs[..i] + xs[i..];
    assert InsertAt(xs, i, x) == xs[..i] + [x] + xs[i..];
    hide Without, InsertAt;
  }

  // The group is the same one, and holds the same panels in the same order, leaving one panel aside. If it has never held
  // that panel, its selection is the same, too.
  ghost predicate SameButFor(before: DockGroup, after: DockGroup, id: nat) {
    && after.id == before.id && after.role == before.role && Without(after.panels, id) == Without(before.panels, id)
    && (id !in before.panels && id !in after.panels ==> after == before)
  }

  lemma {:induction false} EntriesOnce(entries: seq<DockAutoHideEntry>, id: nat, e: DockAutoHideEntry)
    requires e.panel == id
    ensures WithoutEntries(WithoutEntries(entries, id), id) == WithoutEntries(entries, id)
    ensures WithoutEntries(WithoutEntries(entries, id) + [e], id) == WithoutEntries(entries, id)
  {
    if entries == [] {
      assert [e][1..] == [];
    } else {
      EntriesOnce(entries[1..], id, e);
      var rest := WithoutEntries(entries[1..], id);
      assert ([entries[0]] + rest)[1..] == rest;
      assert ([entries[0]] + rest + [e])[1..] == rest + [e];
    }
  }

  lemma DetachedSame(groups: seq<DockGroup>, id: nat, i: nat)
    requires i < |groups|
    ensures SameButFor(groups[i], DetachFromAll(groups, id)[i], id)
  {
    WithoutTwice(groups[i].panels, id);
    assert DetachFrom(groups[i], id).panels == Without(groups[i].panels, id);
  }

  lemma MovedSame(s: DockLayoutSnapshot, id: nat, k: nat, index: Option<nat>, i: nat)
    requires k < |s.groups| && i < |s.groups|
    ensures SameButFor(s.groups[i], InsertInto(Detached(s, id), id, k, index).groups[i], id)
  {
    hide Without, InsertAt, DetachFrom, WithoutEntries;
    var g := Detached(s, id).groups[k];
    DetachedSame(s.groups, id, i);
    var at := if index.Some? && index.value < |g.panels| then index.value else |g.panels|;
    WithoutInserted(g.panels, at, id);
  }

  lemma ActivatedSame(groups: seq<DockGroup>, id: nat, i: nat)
    requires i < |groups|
    ensures SameButFor(groups[i], ActivateIn(groups, id)[i], id)
  {}

  lemma KeptGroups(s: DockLayoutSnapshot, panel: DockPanel, m: DockMutation)
    ensures |DetachFromAll(s.groups, m.panel)| == |s.groups| == |ActivateIn(s.groups, m.panel)|
    ensures Activated(s, m.panel).groups == ActivateIn(s.groups, m.panel)
    ensures Closed(s, m.panel).groups == DetachFromAll(s.groups, m.panel)
    ensures Hidden(s, m.panel, m.edge).groups == DetachFromAll(s.groups, m.panel)
    ensures |InNewGroup(s, panel, m.newGroup).groups| == |s.groups| + 1
    ensures InNewGroup(s, panel, m.newGroup).groups[..|s.groups|] == DetachFromAll(s.groups, panel.id)
  {}

  lemma FloatedGroups(s: DockLayoutSnapshot, panel: DockPanel, m: DockMutation)
    requires Floated(s, panel, m).Accepted?
    ensures Floated(s, panel, m).snapshot.groups == InNewGroup(s, panel, m.newGroup).groups
  {}

  // Whatever is accepted, the strips keep their entries for every other panel, with their edges and in their order.
  lemma StripsStayPut(s: DockLayoutSnapshot, m: DockMutation)
    requires Apply(s, m).Accepted?
    ensures WithoutEntries(Apply(s, m).snapshot.autoHide, m.panel) == WithoutEntries(s.autoHide, m.panel)
  {
    hide WithoutEntries, DetachFromAll, ActivateIn, WithoutPanel, FirstPlacedPanel, NextOrder, SplitOff, InsertPanel;
    var panel := FindPanel(s.panels, m.panel).value;
    var d := Detached(s, m.panel);
    EntriesOnce(s.autoHide, m.panel, DockAutoHideEntry(m.panel, m.edge, NextOrder(d.autoHide, m.edge)));
    if m.kind == SplitToGroup { SplitGroups(s, panel, m); }
  }

  // Whatever is accepted, every other panel keeps its group and its place among the other panels there, and a group that
  // neither held nor gets the panel keeps its selection.
  lemma OthersStayPut(s: DockLayoutSnapshot, m: DockMutation, i: nat)
    requires Apply(s, m).Accepted? && i < |s.groups|
    ensures i < |Apply(s, m).snapshot.groups| && SameButFor(s.groups[i], Apply(s, m).snapshot.groups[i], m.panel)
  {
    hide SameButFor, SplitOff, Floated, InsertInto, Activated, Hidden, Closed, Detached, InNewGroup, DetachFromAll, ActivateIn;
    var panel := FindPanel(s.panels, m.panel).value;
    DetachedSame(s.groups, m.panel, i);
    ActivatedSame(s.groups, m.panel, i);
    KeptGroups(s, panel, m);
    assert InNewGroup(s, panel, m.newGroup).groups[i] == DetachFromAll(s.groups, panel.id)[i] by {
      assert InNewGroup(s, panel, m.newGroup).groups[i] == InNewGroup(s, panel, m.newGroup).groups[..|s.groups|][i];
    }
    match m.kind
    case MoveToGroup =>
      MovedSame(s, m.panel, IndexOf(GroupIds(s.groups), m.targetGroup).value, m.targetIndex, i);
      MovedSize(s, m.panel, IndexOf(GroupIds(s.groups), m.targetGroup).value, m.targetIndex);
    case SplitToGroup => SplitGroups(s, panel, m);
    case FloatPanel => FloatedGroups(s, panel, m);
    case _ =>
  }

  lemma MovedSize(s: DockLayoutSnapshot, id: nat, k: nat, index: Option<nat>)
    requires k < |s.groups|
    ensures |InsertInto(Detached(s, id), id, k, index).groups| == |s.groups|
  {}

  lemma SplitGroups(s: DockLayoutSnapshot, panel: DockPanel, m: DockMutation)
    requires SplitOff(s, panel, m).Accepted?
    ensures var r := SplitOff(s, panel, m).snapshot;
            r.groups == InNewGroup(s, panel, m.newGroup).groups && r.autoHide == Detached(s, panel.id).autoHide
  {
    hide GraftTable;
    var w := InNewGroup(s, panel, m.newGroup);
    var target := TargetRow(w.nodes + [LeafRow(m.newGroupNode, m.newGroup)], m.targetGroup).value;
    GraftSizes(w, m.newGroupNode, m.newGroup, target, m.newSplitNode, m.edge, m.splitRatio);
  }
}
