// Where a mutation puts its panel.
module DockEffects {
  import opened Basics
  import opened DockTypes
  import opened DockForest
  import opened DockValidate
  import opened DockGraft
  import opened DockMutation
  import opened DockPreserve

  // The panel is the active one of the layout and of the group that shows it.
  predicate Shown(s: DockLayoutSnapshot, id: nat) {
    s.activePanel == Some(id) && forall g :: g in s.groups && id in g.panels ==> g.active == Some(id)
  }

  // The group's panels once id has been taken out of them wherever it was.
  function Others(g: DockGroup, id: nat): seq<nat> { Without(g.panels, id) }

  // The panel stands at the wanted place among the other panels of the group, or last.
  predicate StandsAt(before: DockGroup, after: DockGroup, id: nat, index: Option<nat>) {
    var others := Others(before, id);
    var at := if index.Some? && index.value < |others| then index.value else |others|;
    |after.panels| == |others| + 1 && after.panels[at] == id
  }

  predicate AloneInNewGroup(s: DockLayoutSnapshot, r: DockLayoutSnapshot, panel: DockPanel, group: nat) {
    |r.groups| == |s.groups| + 1 && r.groups[|s.groups|] == DockGroup(group, RoleFor(panel.role), [panel.id], Some(panel.id))
  }

  // The strip entry comes last, with an order above those already at that edge.
  predicate OnStrip(s: DockLayoutSnapshot, r: DockLayoutSnapshot, id: nat, edge: DockEdge) {
    && |r.autoHide| > 0
    && var n := |r.autoHide| - 1;
       && r.autoHide[n].panel == id && r.autoHide[n].edge == edge
       && (forall e :: e in r.autoHide[..n] && e.edge == edge ==> e.order < r.autoHide[n].order)
       && HiddenPanels(r.autoHide[..n]) == Without(HiddenPanels(s.autoHide), id)
  }

  // ---- kind by kind ----

  lemma DetachedGone(s: DockLayoutSnapshot, id: nat)
    ensures forall g :: g in Detached(s, id).groups ==> id !in g.panels
  {
    var d := Detached(s, id);
    forall g | g in d.groups ensures id !in g.panels {
      var i :| 0 <= i < |d.groups| && d.groups[i] == g;
      NotInWithout(s.groups[i].panels, id);
      assert g.panels == Without(s.groups[i].panels, id) by { DetachedPanels(s.groups[i], id); }
    }
  }

  lemma DetachedPanels(g: DockGroup, id: nat)
    ensures DetachFrom(g, id).panels == Without(g.panels, id)
  {}

  lemma NotInWithout(xs: seq<nat>, x: nat)
    ensures x !in Without(xs, x)
  {
    assert x !in multiset(Without(xs, x));
  }

  lemma MoveLands(s: DockLayoutSnapshot, id: nat, k: nat, index: Option<nat>)
    requires k < |s.groups|
    ensures var r := InsertInto(Detached(s, id), id, k, index);
            Shown(r, id) && StandsAt(s.groups[k], r.groups[k], id, index)
  {
    hide Without, WithoutEntries;
    var d := Detached(s, id);
    var r := InsertInto(d, id, k, index);
    DetachedGone(s, id);
    DetachedPanels(s.groups[k], id);
    assert d.groups[k].panels == Others(s.groups[k], id);
    forall i | 0 <= i < |d.groups| ensures id !in d.groups[i].panels { assert d.groups[i] in d.groups; }
    forall g | g in r.groups && id in g.panels ensures g.active == Some(id) {
      var i :| 0 <= i < |r.groups| && r.groups[i] == g;
    }
  }

  lemma HideLands(s: DockLayoutSnapshot, id: nat, edge: DockEdge)
    ensures Shown(Hidden(s, id, edge), id) && OnStrip(s, Hidden(s, id, edge), id, edge)
  {
    hide Without, WithoutEntries, DetachFromAll, NextOrder;
    var d, r := Detached(s, id), Hidden(s, id, edge);
    DetachedGone(s, id);
    WithoutEntriesPanels(s.autoHide, id);
    assert r.autoHide[..|r.autoHide| - 1] == d.autoHide;
  }

  lemma NewGroupLands(s: DockLayoutSnapshot, panel: DockPanel, group: nat)
    ensures var w := InNewGroup(s, panel, group);
            AloneInNewGroup(s, w, panel, group) && Shown(w.(activePanel := Some(panel.id)), panel.id)
  {
    hide Without, WithoutEntries, DetachFromAll;
    var d, w := Detached(s, panel.id), InNewGroup(s, panel, group);
    DetachedGone(s, panel.id);
    assert |d.groups| == |s.groups| by { DetachedSize(s, panel.id); }
    forall g | g in w.groups && panel.id in g.panels ensures g.active == Some(panel.id) {
      var i :| 0 <= i < |w.groups| && w.groups[i] == g;
      if i < |d.groups| { assert d.groups[i] in d.groups; }
    }
  }

  lemma DetachedSize(s: DockLayoutSnapshot, id: nat)
    ensures |Detached(s, id).groups| == |s.groups|
  {}

  lemma SameGroupsShown(w: DockLayoutSnapshot, r: DockLayoutSnapshot, id: nat)
    requires Shown(w, id) && r.groups == w.groups && r.activePanel == w.activePanel
    ensures Shown(r, id)
  {}

  // Closing takes the panel out and keeps the others; if it was the active one another becomes active, as long as any
  // is left.
  ghost predicate ClosedAsAsked(s: DockLayoutSnapshot, r: DockLayoutSnapshot, id: nat) {
    && PanelIds(r.panels) == Without(PanelIds(s.panels), id) && id !in PanelIds(r.panels)
    && (s.activePanel != Some(id) ==> r.activePanel == s.activePanel)
    && (s.activePanel == Some(id) ==> r.activePanel != Some(id) && (r.activePanel.None? <==> r.panels == []))
  }

  lemma CloseLands(s: DockLayoutSnapshot, id: nat)
    requires Structural(s) && id in PanelIds(s.panels)
    ensures ClosedAsAsked(s, Closed(s, id), id)
  {
    hide Without, WithoutPanel, DetachFromAll, WithoutEntries, HasForest, TableOk, PanelIds, GroupsOk, Arranged;
    var r := Closed(s, id);
    WithoutPanelIds(s.panels, id);
    NotInWithout(PanelIds(s.panels), id);
    StructuralIds(s);
    CloseKeeps(s, id);
    if s.activePanel == Some(id) {
      SomethingPlaced(r);
      assert r.activePanel == FirstPlacedPanel(r);
      assert ActiveKnown(r);
    }
  }

  // In a sound layout a first placed panel is found exactly when there are panels.
  lemma SomethingPlaced(r: DockLayoutSnapshot)
    requires Structural(r)
    ensures FirstPlacedPanel(r).None? <==> r.panels == []
  {
    hide HasForest, TableOk;
    SameCountsSameLength(Placements(r), PanelIds(r.panels));
    NonePlaced(r.groups);
    assert |Placements(r)| == |Placed(r.groups)| + |r.autoHide|;
    assert |PanelIds(r.panels)| == |r.panels|;
  }

  lemma {:induction false} NonePlaced(groups: seq<DockGroup>)
    requires forall g :: g in groups ==> SelectionOk(g)
    ensures FirstInGroups(groups).None? <==> Placed(groups) == []
  {
    if groups == [] {
    } else {
      assert groups[0] in groups;
      NonePlaced(groups[1..]);
      PlacedConcat([groups[0]], groups[1..]);
      assert groups == [groups[0]] + groups[1..];
      assert [groups[0]][..0] == [];
      assert Placed([groups[0]]) == groups[0].panels;
    }
  }

  // ---- all kinds ----

  // What each kind of mutation promises about its panel.
  ghost predicate DoneAsAsked(s: DockLayoutSnapshot, r: DockLayoutSnapshot, panel: DockPanel, m: DockMutation) {
    match m.kind
    case Activate => Shown(r, m.panel)
    case ClosePanel => ClosedAsAsked(s, r, m.panel)
    case AutoHide => Shown(r, m.panel) && OnStrip(s, r, m.panel, m.edge)
    case MoveToGroup =>
      && Shown(r, m.panel)
      && exists k :: 0 <= k < |s.groups| <= |r.groups| && s.groups[k].id == m.targetGroup == r.groups[k].id &&
                     StandsAt(s.groups[k], r.groups[k], m.panel, m.targetIndex)
    case FloatPanel =>
      && Shown(r, m.panel) && AloneInNewGroup(s, r, panel, m.newGroup)
      && r.floatingHosts == s.floatingHosts + [DockFloatingHost(m.newFloatingHost, m.newGroupNode, m.floatingPlacement)]
    case SplitToGroup => Shown(r, m.panel) && AloneInNewGroup(s, r, panel, m.newGroup)
  }

  // Whatever is accepted puts the panel where the mutation says.
  lemma AcceptedDoesAsAsked(s: DockLayoutSnapshot, m: DockMutation)
    requires Structural(s) && Apply(s, m).Accepted?
    ensures DoneAsAsked(s, Apply(s, m).snapshot, FindPanel(s.panels, m.panel).value, m)
  {
    hide Structural, SplitOff, Activated, Hidden, Closed, InsertInto, Shown, StandsAt, OnStrip, ClosedAsAsked, AloneInNewGroup;
    var panel := FindPanel(s.panels, m.panel).value;
    var r := Apply(s, m).snapshot;
    match m.kind
    case Activate => ActivateLands(s, m.panel);
    case ClosePanel => CloseLands(s, m.panel);
    case AutoHide => HideLands(s, m.panel, m.edge);
    case MoveToGroup =>
      var k := IndexOf(GroupIds(s.groups), m.targetGroup).value;
      MoveLands(s, m.panel, k, m.targetIndex);
      MoveKeepsGroupId(s, m.panel, k, m.targetIndex);
    case FloatPanel =>
      NewGroupLands(s, panel, m.newGroup);
      var w := InNewGroup(s, panel, m.newGroup);
      SameGroupsShown(w.(activePanel := Some(panel.id)), r, panel.id);
      SameNewGroup(s, w, r, panel, m.newGroup);
    case SplitToGroup =>
      NewGroupLands(s, panel, m.newGroup);
      var w := InNewGroup(s, panel, m.newGroup);
      SplitGroups(s, panel, m);
      SplitActivates(s, panel, m);
      SameGroupsShown(w.(activePanel := Some(panel.id)), r, panel.id);
      SameNewGroup(s, w, r, panel, m.newGroup);
  }

  lemma ActivateLands(s: DockLayoutSnapshot, id: nat)
    ensures Shown(Activated(s, id), id)
  {
    var r := Activated(s, id);
    forall g | g in r.groups && id in g.panels ensures g.active == Some(id) {
      var i :| 0 <= i < |r.groups| && r.groups[i] == g;
    }
  }

  lemma MoveKeepsGroupId(s: DockLayoutSnapshot, id: nat, k: nat, index: Option<nat>)
    requires k < |s.groups|
    ensures var r := InsertInto(Detached(s, id), id, k, index); |r.groups| == |s.groups| && r.groups[k].id == s.groups[k].id
  {}

  lemma SameNewGroup(s: DockLayoutSnapshot, w: DockLayoutSnapshot, r: DockLayoutSnapshot, panel: DockPanel, group: nat)
    requires AloneInNewGroup(s, w, panel, group) && r.groups == w.groups
    ensures AloneInNewGroup(s, r, panel, group)
  {}

  lemma SplitActivates(s: DockLayoutSnapshot, panel: DockPanel, m: DockMutation)
    requires SplitOff(s, panel, m).Accepted?
    ensures SplitOff(s, panel, m).snapshot.activePanel == Some(panel.id)
  {
    hide GraftTable;
  }

  // ---- sides ----

  // Which way a new group goes: to the left and above it comes first, to the right and below second; left and right
  // stand side by side, above and below on top of each other.
  lemma EdgeSides(target: nat, targetGroup: nat, groupNode: nat, group: nat, splitNode: nat, ratio: real)
    ensures var there, added := Leaf(target, targetGroup), Leaf(groupNode, group);
            && Graft(there, target, groupNode, group, splitNode, LeftEdge, ratio) == Split(splitNode, Vertical, ratio, added, there)
            && Graft(there, target, groupNode, group, splitNode, RightEdge, ratio) == Split(splitNode, Vertical, ratio, there, added)
            && Graft(there, target, groupNode, group, splitNode, TopEdge, ratio) == Split(splitNode, Horizontal, ratio, added, there)
            && Graft(there, target, groupNode, group, splitNode, BottomEdge, ratio) == Split(splitNode, Horizontal, ratio, there, added)
  {}
}
