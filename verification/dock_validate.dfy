// What a valid layout is, and the procedure that decides it.
module DockValidate {
  import opened Basics
  import opened DockTypes
  import opened DockForest

  predicate UsableIds(ids: seq<nat>) {
    0 !in ids && forall i, j :: 0 <= i < j < |ids| ==> ids[i] != ids[j]
  }

  predicate DistinctIds(s: DockLayoutSnapshot) {
    UsableIds(PanelIds(s.panels)) && UsableIds(GroupIds(s.groups)) &&
    UsableIds(NodeIds(s.nodes)) && UsableIds(HostIds(s.floatingHosts))
  }

  predicate SelectionOk(g: DockGroup) {
    (g.panels == [] <==> g.active.None?) && (g.active.Some? ==> g.active.value in g.panels)
  }

  predicate RolesOk(panels: seq<DockPanel>, g: DockGroup) {
    forall p :: p in panels && p.id in g.panels ==> RoleFor(p.role) == g.role
  }

  predicate HiddenRolesOk(panels: seq<DockPanel>, hidden: seq<nat>) {
    forall p :: p in panels && p.id in hidden ==> p.role == ToolPanel
  }

  // Groups and auto-hide strips partition the panels.
  function Placements(s: DockLayoutSnapshot): seq<nat> {
    Placed(s.groups) + HiddenPanels(s.autoHide)
  }

  predicate PanelsPartitioned(s: DockLayoutSnapshot) {
    multiset(Placements(s)) == multiset(PanelIds(s.panels))
  }

  ghost predicate GroupsOk(s: DockLayoutSnapshot) {
    forall g :: g in s.groups ==> SelectionOk(g) && RolesOk(s.panels, g)
  }

  ghost predicate Arranged(s: DockLayoutSnapshot) {
    PanelsPartitioned(s) && GroupsOk(s) && HiddenRolesOk(s.panels, HiddenPanels(s.autoHide))
  }

  predicate ActiveKnown(s: DockLayoutSnapshot) {
    s.activePanel.Some? ==> s.activePanel.value in PanelIds(s.panels)
  }

  ghost predicate PlacementOk(s: DockLayoutSnapshot) {
    Arranged(s) && ActiveKnown(s)
  }

  predicate NodeFieldsOk(n: DockNode) {
    if n.kind == GroupNode then n.first == 0 && n.second == 0
    else n.group == 0 && ValidRatio(n.ratio)
  }

  // Every row is well formed and every group has exactly one leaf row.
  ghost predicate NodesOk(s: DockLayoutSnapshot) {
    && (forall n :: n in s.nodes ==> NodeFieldsOk(n))
    && multiset(LeafGroups(s.nodes)) == multiset(GroupIds(s.groups))
  }

  ghost predicate HostsOk(s: DockLayoutSnapshot) {
    forall h :: h in s.floatingHosts ==> ValidPlacement(h.placement)
  }

  ghost predicate TableOk(s: DockLayoutSnapshot) {
    NodesOk(s) && HostsOk(s)
  }

  ghost predicate HasForest(s: DockLayoutSnapshot) {
    exists ts :: IsForest(s.nodes, Roots(s), ts)
  }

  // Everything a layout must satisfy apart from the size limits.
  ghost predicate Structural(s: DockLayoutSnapshot) {
    && DistinctIds(s)
    && (forall p :: p in s.panels ==> p.title != "")
    && PlacementOk(s)
    && TableOk(s)
    && HasForest(s)
  }

  predicate WithinSizes(s: DockLayoutSnapshot) {
    |s.panels| <= MAX_PANELS && |s.groups| <= MAX_GROUPS && |s.nodes| <= MAX_NODES &&
    |s.floatingHosts| <= MAX_FLOATING_HOSTS && |s.autoHide| <= MAX_AUTO_HIDE
  }

  predicate ShortTitles(s: DockLayoutSnapshot) {
    forall p :: p in s.panels ==> |p.title| <= MAX_TITLE
  }

  ghost predicate ValidSnapshot(s: DockLayoutSnapshot) {
    Structural(s) && WithinSizes(s) && ShortTitles(s)
  }

  // ---- counters ----

  // uses counts the references seen so far; each was to a known id and none came twice.
  ghost predicate Tally(ids: seq<nat>, uses: seq<nat>, seen: seq<nat>) {
    && |uses| == |ids|
    && (forall k :: 0 <= k < |ids| ==> uses[k] == if ids[k] in seen then 1 else 0)
    && (forall x :: x in seen ==> x in ids)
    && NoDuplicates(seen)
  }

  // The test `index && ++uses[*index] == 1`.
  method UseOnce(ids: seq<nat>, uses: seq<nat>, ghost seen: seq<nat>, id: nat) returns (ok: bool, index: nat, next: seq<nat>)
    requires NoDuplicates(ids) && Tally(ids, uses, seen)
    ensures ok <==> id in ids && id !in seen
    ensures ok ==> index < |ids| && ids[index] == id && IndexOf(ids, id) == Some(index) && Tally(ids, next, seen + [id])
  {
    index, next := 0, uses;
    var found := IndexOf(ids, id);
    if found.None? { return false, index, next; }
    index := found.value;
    next := uses[index := uses[index] + 1];
    ok := next[index] == 1;
  }

  lemma NothingCounted(s: DockLayoutSnapshot, uses: seq<nat>, parents: seq<nat>)
    requires |uses| == |s.groups| && forall k :: 0 <= k < |uses| ==> uses[k] == 0
    requires |parents| == |s.nodes| && forall k :: 0 <= k < |parents| ==> parents[k] == 0
    ensures RowsCounted(s, 0, uses, parents)
  {}

  lemma NotAPermutation(ids: seq<nat>, all: seq<nat>, k: nat)
    requires NoDuplicates(ids) && k < |all|
    requires all[k] !in ids || all[k] in all[..k]
    ensures multiset(all) != multiset(ids)
  {
    NoDuplicatesMultiset(ids);
    NoDuplicatesMultiset(all);
    assert all[k] in multiset(all);
    if all[k] in ids {
      var j :| 0 <= j < k && all[j] == all[k];
      assert !NoDuplicates(all);
    }
  }

  lemma FullTally(ids: seq<nat>, uses: seq<nat>, all: seq<nat>)
    requires NoDuplicates(ids) && Tally(ids, uses, all)
    ensures (forall k :: 0 <= k < |uses| ==> uses[k] == 1) <==> multiset(all) == multiset(ids)
  {
    NoDuplicatesMultiset(ids);
    NoDuplicatesMultiset(all);
    if forall k :: 0 <= k < |uses| ==> uses[k] == 1 {
      forall x ensures multiset(all)[x] == multiset(ids)[x] {
        if x in ids {
          var k :| 0 <= k < |ids| && ids[k] == x;
          assert uses[k] == 1;
        }
        assert x in all <==> x in multiset(all);
        assert x in ids <==> x in multiset(ids);
        assert multiset(all)[x] <= 1 && multiset(ids)[x] <= 1;
      }
    }
    if multiset(all) == multiset(ids) {
      forall k | 0 <= k < |uses| ensures uses[k] == 1 {
        assert ids[k] in multiset(ids);
      }
    }
  }

  // uses counts the references in m, with multiplicity.
  ghost predicate Counts(ids: seq<nat>, uses: seq<nat>, m: multiset<nat>) {
    |uses| == |ids| && (forall k :: 0 <= k < |ids| ==> uses[k] == m[ids[k]]) && (forall x :: x in m ==> x in ids)
  }

  lemma CountOneMore(ids: seq<nat>, uses: seq<nat>, m: multiset<nat>, k: nat)
    requires NoDuplicates(ids) && Counts(ids, uses, m) && k < |ids|
    ensures Counts(ids, uses[k := uses[k] + 1], m + multiset{ids[k]})
  {}

  lemma AllCountsOne(ids: seq<nat>, uses: seq<nat>, m: multiset<nat>)
    requires NoDuplicates(ids) && Counts(ids, uses, m)
    ensures (forall k :: 0 <= k < |uses| ==> uses[k] == 1) <==> m == multiset(ids)
  {
    NoDuplicatesMultiset(ids);
    if forall k :: 0 <= k < |uses| ==> uses[k] == 1 {
      forall x ensures m[x] == multiset(ids)[x] {
        if x in ids {
          var k :| 0 <= k < |ids| && ids[k] == x;
          assert uses[k] == 1 && multiset(ids)[x] <= 1;
        }
      }
    }
    if m == multiset(ids) {
      forall k | 0 <= k < |uses| ensures uses[k] == 1 {
        assert ids[k] in m && multiset(ids)[ids[k]] <= 1;
      }
    }
  }

  // ---- the procedure, stage by stage ----

  method HasDuplicate(ids: seq<nat>) returns (duplicate: bool)
    ensures duplicate <==> !UsableIds(ids)
  {
    var i := 0;
    while i < |ids|
      invariant 0 <= i <= |ids|
      invariant forall k :: 0 <= k < i ==> ids[k] != 0
      invariant forall k, j :: 0 <= k < i && k < j < |ids| ==> ids[k] != ids[j]
    {
      if ids[i] == 0 { return true; }
      var j := i + 1;
      while j < |ids|
        invariant i < j <= |ids|
        invariant forall m :: i < m < j ==> ids[i] != ids[m]
      {
        if ids[i] == ids[j] { return true; }
        j := j + 1;
      }
      i := i + 1;
    }
    duplicate := false;
  }

  method CheckTitles(panels: seq<DockPanel>) returns (ok: bool)
    ensures ok <==> forall p :: p in panels ==> 0 < |p.title| <= MAX_TITLE
  {
    for i := 0 to |panels|
      invariant forall p :: p in panels[..i] ==> 0 < |p.title| <= MAX_TITLE
    {
      if panels[i].title == "" || |panels[i].title| > MAX_TITLE { return false; }
      assert panels[..i + 1] == panels[..i] + [panels[i]];
    }
    assert panels[..|panels|] == panels;
    ok := true;
  }

  lemma RoleAt(panels: seq<DockPanel>, k: nat)
    requires NoDuplicates(PanelIds(panels)) && k < |panels|
    ensures forall p :: p in panels && p.id == panels[k].id ==> p == panels[k]
  {
    forall p | p in panels && p.id == panels[k].id ensures p == panels[k] {
      var j :| 0 <= j < |panels| && panels[j] == p;
      assert PanelIds(panels)[j] == PanelIds(panels)[k];
    }
  }

  // Where the panels of group gi sit in the overall sequence of placements.
  lemma PlacementSlice(s: DockLayoutSnapshot, gi: nat, i: nat)
    requires gi < |s.groups| && i <= |s.groups[gi].panels|
    ensures var before := Placed(s.groups[..gi]);
            && |before| + i <= |Placements(s)|
            && Placements(s)[..|before| + i] == before + s.groups[gi].panels[..i]
            && (i < |s.groups[gi].panels| ==> |before| + i < |Placements(s)| && Placements(s)[|before| + i] == s.groups[gi].panels[i])
  {
    PlacedSplit(s.groups, gi);
  }

  lemma RepeatedInGroup(s: DockLayoutSnapshot, gi: nat, i: nat, j: nat)
    requires UsableIds(PanelIds(s.panels)) && gi < |s.groups| && i < j < |s.groups[gi].panels|
    requires s.groups[gi].panels[i] == s.groups[gi].panels[j]
    ensures !PanelsPartitioned(s)
  {
    var before := Placed(s.groups[..gi]);
    PlacementSlice(s, gi, j);
    assert s.groups[gi].panels[..j][i] == s.groups[gi].panels[i];
    assert Placements(s)[..|before| + j][|before| + i] == s.groups[gi].panels[j];
    NotAPermutation(PanelIds(s.panels), Placements(s), |before| + j);
  }

  method RepeatsLater(panels: seq<nat>, i: nat) returns (found: bool, j: nat)
    requires i < |panels|
    ensures found ==> i < j < |panels| && panels[i] == panels[j] && panels[i] in panels[i + 1..]
    ensures !found ==> panels[i] !in panels[i + 1..]
  {
    j := i + 1;
    while j < |panels|
      invariant i < j <= |panels|
      invariant panels[i] !in panels[i + 1..j]
    {
      if panels[i] == panels[j] {
        assert panels[i + 1..][j - i - 1] == panels[i];
        return true, j;
      }
      assert panels[i + 1..j + 1] == panels[i + 1..j] + [panels[j]];
      j := j + 1;
    }
    assert panels[i + 1..j] == panels[i + 1..];
    found := false;
  }

  // The first complaint about a group from its panel i on, given the panels of the groups before it.
  function GroupStatus(panels: seq<DockPanel>, g: DockGroup, before: seq<nat>, i: nat): DockLayoutStatus
    requires i <= |g.panels|
    decreases |g.panels| - i
  {
    if i == |g.panels| then (if SelectionOk(g) then Success else InvalidGraph)
    else match IndexOf(PanelIds(panels), g.panels[i])
      case None => InvalidGraph
      case Some(k) =>
        if g.panels[i] in before + g.panels[..i] || RoleFor(panels[k].role) != g.role then InvalidGraph
        else if g.panels[i] in g.panels[i + 1..] then DuplicateId
        else GroupStatus(panels, g, before, i + 1)
  }

  // The first complaint about the groups from number gi on.
  function GroupsStatus(s: DockLayoutSnapshot, gi: nat): DockLayoutStatus
    requires gi <= |s.groups|
    decreases |s.groups| - gi
  {
    if gi == |s.groups| then Success
    else
      var status := GroupStatus(s.panels, s.groups[gi], Placed(s.groups[..gi]), 0);
      if status != Success then status else GroupsStatus(s, gi + 1)
  }

  lemma GroupStatusStep(panels: seq<DockPanel>, g: DockGroup, before: seq<nat>, i: nat)
    requires i < |g.panels|
    ensures var id, found := g.panels[i], IndexOf(PanelIds(panels), g.panels[i]);
            GroupStatus(panels, g, before, i) ==
              if id !in PanelIds(panels) || id in before + g.panels[..i] then InvalidGraph
              else if RoleFor(panels[found.value].role) != g.role then InvalidGraph
              else if id in g.panels[i + 1..] then DuplicateId
              else GroupStatus(panels, g, before, i + 1)
  {}

  // The panels listed up to i that exist have the group's role.
  predicate RolesUpTo(panels: seq<DockPanel>, g: DockGroup, i: nat)
    requires i <= |g.panels|
  {
    forall p :: p in panels && p.id in g.panels[..i] ==> RoleFor(p.role) == g.role
  }

  lemma RolesNext(panels: seq<DockPanel>, g: DockGroup, i: nat, k: nat)
    requires NoDuplicates(PanelIds(panels)) && i < |g.panels| && k < |panels| && panels[k].id == g.panels[i]
    requires RolesUpTo(panels, g, i)
    ensures RoleFor(panels[k].role) == g.role ==> RolesUpTo(panels, g, i + 1)
    ensures RoleFor(panels[k].role) != g.role ==> !RolesOk(panels, g)
  {
    RoleAt(panels, k);
    assert g.panels[..i + 1] == g.panels[..i] + [g.panels[i]];
    assert panels[k] in panels && panels[k].id in g.panels;
  }

  lemma RolesWhole(panels: seq<DockPanel>, g: DockGroup)
    ensures RolesUpTo(panels, g, 0) && (RolesUpTo(panels, g, |g.panels|) <==> RolesOk(panels, g))
  {
    assert g.panels[..|g.panels|] == g.panels;
  }

  lemma GroupNotOk(s: DockLayoutSnapshot, gi: nat)
    requires gi < |s.groups| && !(SelectionOk(s.groups[gi]) && RolesOk(s.panels, s.groups[gi]))
    ensures !PlacementOk(s)
  {
    assert s.groups[gi] in s.groups;
  }

  // One group of the placement stage: every listed panel exists, is used for the first time, and fits the role.
  method CheckGroup(s: DockLayoutSnapshot, gi: nat, uses0: seq<nat>) returns (status: DockLayoutStatus, uses: seq<nat>)
    requires gi < |s.groups| && UsableIds(PanelIds(s.panels))
    requires Tally(PanelIds(s.panels), uses0, Placed(s.groups[..gi]))
    ensures status in {Success, InvalidGraph, DuplicateId}
    ensures status == Success ==>
              Tally(PanelIds(s.panels), uses, Placed(s.groups[..gi + 1])) &&
              SelectionOk(s.groups[gi]) && RolesOk(s.panels, s.groups[gi])
    ensures status != Success ==> !PlacementOk(s)
    ensures status == GroupStatus(s.panels, s.groups[gi], Placed(s.groups[..gi]), 0)
  {
    hide Tally, Placed, Placements, RolesUpTo, RolesOk, GroupStatus, GroupsOk, HiddenRolesOk;
    var g := s.groups[gi];
    var ids := PanelIds(s.panels);
    ghost var before := Placed(s.groups[..gi]);
    uses := uses0;
    var i := 0;
    assert before + g.panels[..0] == before;
    RolesWhole(s.panels, g);
    while i < |g.panels|
      invariant 0 <= i <= |g.panels|
      invariant Tally(ids, uses, before + g.panels[..i])
      invariant RolesUpTo(s.panels, g, i)
      invariant GroupStatus(s.panels, g, before, 0) == GroupStatus(s.panels, g, before, i)
    {
      PlacementSlice(s, gi, i);
      GroupStatusStep(s.panels, g, before, i);
      var ok, k, next := UseOnce(ids, uses, before + g.panels[..i], g.panels[i]);
      if !ok {
        NotAPermutation(ids, Placements(s), |before| + i);
        return InvalidGraph, uses;
      }
      assert before + g.panels[..i] + [g.panels[i]] == before + g.panels[..i + 1];
      uses := next;
      RolesNext(s.panels, g, i, k);
      if RoleFor(s.panels[k].role) != g.role {
        GroupNotOk(s, gi);
        return InvalidGraph, uses;
      }
      var repeated, j := RepeatsLater(g.panels, i);
      if repeated {
        RepeatedInGroup(s, gi, i, j);
        return DuplicateId, uses;
      }
      i := i + 1;
    }
    assert g.panels[..i] == g.panels;
    PlacedSplit(s.groups, gi);
    GroupStatusEnd(s.panels, g, before);
    if (g.panels == []) != g.active.None? || (g.active.Some? && g.active.value !in g.panels) {
      GroupNotOk(s, gi);
      return InvalidGraph, uses;
    }
    status := Success;
  }

  lemma GroupStatusEnd(panels: seq<DockPanel>, g: DockGroup, before: seq<nat>)
    ensures GroupStatus(panels, g, before, |g.panels|) == if SelectionOk(g) then Success else InvalidGraph
  {}

  ghost predicate GroupsOkUpTo(s: DockLayoutSnapshot, gi: nat)
    requires gi <= |s.groups|
  {
    forall k :: 0 <= k < gi ==> SelectionOk(s.groups[k]) && RolesOk(s.panels, s.groups[k])
  }

  lemma GroupsOkWhole(s: DockLayoutSnapshot)
    requires GroupsOkUpTo(s, |s.groups|)
    ensures GroupsOk(s)
  {
    hide SelectionOk, RolesOk;
    forall g | g in s.groups ensures SelectionOk(g) && RolesOk(s.panels, g) {
      var k :| 0 <= k < |s.groups| && s.groups[k] == g;
    }
  }

  lemma GroupsStatusStep(s: DockLayoutSnapshot, gi: nat)
    requires gi < |s.groups|
    ensures var status := GroupStatus(s.panels, s.groups[gi], Placed(s.groups[..gi]), 0);
            GroupsStatus(s, gi) == if status != Success then status else GroupsStatus(s, gi + 1)
  {
    hide GroupStatus;
  }

  lemma NoneUsed(ids: seq<nat>, uses: seq<nat>, groups: seq<DockGroup>)
    requires NoDuplicates(ids) && |uses| == |ids| && forall k :: 0 <= k < |uses| ==> uses[k] == 0
    ensures Tally(ids, uses, Placed(groups[..0]))
  {}

  method CheckGroups(s: DockLayoutSnapshot) returns (status: DockLayoutStatus, uses: seq<nat>)
    requires UsableIds(PanelIds(s.panels))
    ensures status in {Success, InvalidGraph, DuplicateId}
    ensures status == Success ==> Tally(PanelIds(s.panels), uses, Placed(s.groups)) && GroupsOk(s)
    ensures status != Success ==> !PlacementOk(s)
    ensures status == GroupsStatus(s, 0)
  {
    hide Tally, SelectionOk, RolesOk, Placed, PanelIds, PlacementOk, GroupStatus, GroupsStatus, GroupsOk;
    var ids := PanelIds(s.panels);
    uses := Repeat(|ids|, 0);
    NoneUsed(ids, uses, s.groups);
    for gi := 0 to |s.groups|
      invariant Tally(ids, uses, Placed(s.groups[..gi]))
      invariant GroupsOkUpTo(s, gi)
      invariant GroupsStatus(s, 0) == GroupsStatus(s, gi)
    {
      GroupsStatusStep(s, gi);
      status, uses := CheckGroup(s, gi, uses);
      if status != Success { return; }
    }
    assert s.groups[..|s.groups|] == s.groups;
    GroupsOkWhole(s);
    GroupsStatusEnd(s);
    status := Success;
  }

  lemma GroupsStatusEnd(s: DockLayoutSnapshot)
    ensures GroupsStatus(s, |s.groups|) == Success
  {}

  lemma HiddenSizes(s: DockLayoutSnapshot)
    ensures |HiddenPanels(s.autoHide)| == |s.autoHide| && HiddenRolesOk(s.panels, HiddenPanels(s.autoHide)[..0])
    ensures |PanelIds(s.panels)| == |s.panels| && (UsableIds(PanelIds(s.panels)) ==> NoDuplicates(PanelIds(s.panels)))
    ensures forall i :: 0 <= i < |s.autoHide| ==> HiddenPanels(s.autoHide)[i] == s.autoHide[i].panel
  {}

  lemma HiddenRolesNext(panels: seq<DockPanel>, hidden: seq<nat>, i: nat, k: nat)
    requires NoDuplicates(PanelIds(panels)) && i < |hidden| && k < |panels| && PanelIds(panels)[k] == hidden[i]
    requires HiddenRolesOk(panels, hidden[..i])
    ensures panels[k].role == ToolPanel ==> HiddenRolesOk(panels, hidden[..i + 1])
    ensures panels[k].role != ToolPanel ==> !HiddenRolesOk(panels, hidden)
  {
    RoleAt(panels, k);
    assert hidden[..i + 1] == hidden[..i] + [hidden[i]];
    assert panels[k] in panels && hidden[i] in hidden;
  }

  method CheckHidden(s: DockLayoutSnapshot, uses0: seq<nat>) returns (ok: bool, uses: seq<nat>)
    requires UsableIds(PanelIds(s.panels)) && Tally(PanelIds(s.panels), uses0, Placed(s.groups))
    ensures ok ==> Tally(PanelIds(s.panels), uses, Placements(s)) && HiddenRolesOk(s.panels, HiddenPanels(s.autoHide))
    ensures !ok ==> !PlacementOk(s)
  {
    var ids := PanelIds(s.panels);
    var hidden := HiddenPanels(s.autoHide);
    ghost var placed := Placed(s.groups);
    uses := uses0;
    assert placed + hidden[..0] == placed;
    hide Tally, Placed, HiddenRolesOk, HiddenPanels, PanelIds, UsableIds;
    HiddenSizes(s);
    for i := 0 to |s.autoHide|
      invariant Tally(ids, uses, placed + hidden[..i])
      invariant HiddenRolesOk(s.panels, hidden[..i])
    {
      var fits, k, next := UseOnce(ids, uses, placed + hidden[..i], s.autoHide[i].panel);
      assert Placements(s)[|placed| + i] == hidden[i] && Placements(s)[..|placed| + i] == placed + hidden[..i];
      if !fits {
        NotAPermutation(ids, Placements(s), |placed| + i);
        return false, uses;
      }
      HiddenRolesNext(s.panels, hidden, i, k);
      if s.panels[k].role != ToolPanel { return false, uses; }
      uses := next;
      assert placed + hidden[..i] + [hidden[i]] == placed + hidden[..i + 1];
      assert hidden[..i + 1] == hidden[..i] + [hidden[i]];
    }
    assert hidden[..|hidden|] == hidden;
    ok := true;
  }

  method CheckPlacement(s: DockLayoutSnapshot) returns (status: DockLayoutStatus)
    requires UsableIds(PanelIds(s.panels))
    ensures status == Success <==> PlacementOk(s)
    ensures status in {Success, InvalidGraph, DuplicateId}
    ensures status == if GroupsStatus(s, 0) != Success then GroupsStatus(s, 0) else if PlacementOk(s) then Success else InvalidGraph
  {
    hide Tally, GroupsOk, HiddenRolesOk, Placed, PanelIds, Placements, GroupsStatus;
    var uses, ok;
    status, uses := CheckGroups(s);
    if status != Success { return; }
    ok, uses := CheckHidden(s, uses);
    if !ok { return InvalidGraph; }
    FullTally(PanelIds(s.panels), uses, Placements(s));
    if exists k :: 0 <= k < |uses| && uses[k] != 1 { return InvalidGraph; }
    if s.activePanel.Some? && s.activePanel.value !in PanelIds(s.panels) { return InvalidGraph; }
    status := Success;
  }

  // ---- the node table ----

  lemma ChildLinksSplit(nodes: seq<DockNode>, i: nat)
    requires i < |nodes|
    ensures ChildLinks(nodes[..i + 1]) == ChildLinks(nodes[..i]) + Links(nodes[i])
    ensures ChildLinks(nodes[..i + 1]) <= ChildLinks(nodes)
  {
    hide Links;
    assert nodes[..i + 1][..i] == nodes[..i];
    ChildLinksOfFront(nodes, i + 1);
  }

  lemma {:induction false} ChildLinksOfFront(nodes: seq<DockNode>, n: nat)
    requires n <= |nodes|
    ensures ChildLinks(nodes[..n]) <= ChildLinks(nodes)
    decreases |nodes|
  {
    hide Links;
    if n == |nodes| {
      assert nodes[..n] == nodes;
    } else {
      var init := nodes[..|nodes| - 1];
      ChildLinksOfFront(init, n);
      assert init[..n] == nodes[..n];
    }
  }

  ghost predicate LinksOk(s: DockLayoutSnapshot) {
    TableOk(s) && InDegreeOne(s.nodes, Roots(s))
  }

  lemma BothAmong(part: multiset<nat>, before: multiset<nat>, whole: multiset<nat>, roots: multiset<nat>, x: nat)
    requires before + part <= whole
    ensures (roots + whole)[x] >= part[x]
  {
    assert (before + part)[x] <= whole[x];
  }

  lemma BadChild(s: DockLayoutSnapshot, i: nat)
    requires UsableIds(NodeIds(s.nodes)) && i < |s.nodes| && s.nodes[i].kind == SplitNode
    requires var n := s.nodes[i]; n.first !in NodeIds(s.nodes) || n.second !in NodeIds(s.nodes) || n.first == n.second
    ensures !InDegreeOne(s.nodes, Roots(s))
  {
    hide ChildLinks, NodeIds, Roots;
    var n := s.nodes[i];
    ChildLinksSplit(s.nodes, i);
    NoDuplicatesMultiset(NodeIds(s.nodes));
    var all := multiset(Roots(s)) + ChildLinks(s.nodes);
    BothAmong(Links(n), ChildLinks(s.nodes[..i]), ChildLinks(s.nodes), multiset(Roots(s)), n.first);
    BothAmong(Links(n), ChildLinks(s.nodes[..i]), ChildLinks(s.nodes), multiset(Roots(s)), n.second);
    assert Links(n)[n.first] >= 1 && Links(n)[n.second] >= 1 && (n.first == n.second ==> Links(n)[n.first] == 2);
  }

  lemma BadRoots(s: DockLayoutSnapshot)
    requires UsableIds(NodeIds(s.nodes))
    requires !NoDuplicates(Roots(s)) || exists r :: r in Roots(s) && r !in NodeIds(s.nodes)
    ensures !InDegreeOne(s.nodes, Roots(s))
  {
    NoDuplicatesMultiset(NodeIds(s.nodes));
    NoDuplicatesMultiset(Roots(s));
    var all := multiset(Roots(s)) + ChildLinks(s.nodes);
    forall x ensures all[x] >= multiset(Roots(s))[x] {}
    if r :| r in Roots(s) && r !in NodeIds(s.nodes) {
      assert r in multiset(Roots(s)) && r !in multiset(NodeIds(s.nodes));
    }
  }

  lemma OneKindOfRow(nodes: seq<DockNode>, i: nat)
    requires i < |nodes|
    ensures nodes[i].kind == GroupNode ==> ChildLinks(nodes[..i + 1]) == ChildLinks(nodes[..i])
    ensures nodes[i].kind == SplitNode ==> LeafGroups(nodes[..i + 1]) == LeafGroups(nodes[..i])
  {
    LeafGroupsSplit(nodes, i);
    ChildLinksSplit(nodes, i);
  }

  lemma BadFields(s: DockLayoutSnapshot, n: DockNode)
    requires n in s.nodes && !NodeFieldsOk(n)
    ensures !LinksOk(s)
  {}

  lemma EveryGroupHasOneLeaf(s: DockLayoutSnapshot, uses: seq<nat>)
    requires UsableIds(GroupIds(s.groups)) && Tally(GroupIds(s.groups), uses, LeafGroups(s.nodes))
    requires forall k :: 0 <= k < |s.nodes| ==> NodeFieldsOk(s.nodes[k])
    ensures (forall k :: 0 <= k < |uses| ==> uses[k] == 1) <==> NodesOk(s)
    ensures LinksOk(s) ==> NodesOk(s)
  {
    FullTally(GroupIds(s.groups), uses, LeafGroups(s.nodes));
  }

  // The node loop: field checks, uses of each group, and the number of parents of each row before the roots count.
  method CountRows(s: DockLayoutSnapshot) returns (ok: bool, groupUses: seq<nat>, parents: seq<nat>)
    requires UsableIds(NodeIds(s.nodes)) && UsableIds(GroupIds(s.groups))
    ensures ok ==> (forall k :: 0 <= k < |s.nodes| ==> NodeFieldsOk(s.nodes[k])) && RowsCounted(s, |s.nodes|, groupUses, parents)
    ensures !ok ==> !LinksOk(s)
  {
    hide LinksOk, NodeFieldsOk, UsableIds;
    hide RowsCounted;
    groupUses, parents := Repeat(|s.groups|, 0), Repeat(|s.nodes|, 0);
    NothingCounted(s, groupUses, parents);
    for i := 0 to |s.nodes|
      invariant forall k :: 0 <= k < i ==> NodeFieldsOk(s.nodes[k])
      invariant RowsCounted(s, i, groupUses, parents)
    {
      ok, groupUses, parents := CountRow(s, i, groupUses, parents);
      if !ok { return; }
    }
    ok := true;
  }

  ghost predicate RowsCounted(s: DockLayoutSnapshot, i: nat, groupUses: seq<nat>, parents: seq<nat>)
    requires i <= |s.nodes|
  {
    Tally(GroupIds(s.groups), groupUses, LeafGroups(s.nodes[..i])) &&
    Counts(NodeIds(s.nodes), parents, ChildLinks(s.nodes[..i]))
  }

  method CountParents(s: DockLayoutSnapshot) returns (ok: bool, parents: seq<nat>)
    requires UsableIds(NodeIds(s.nodes)) && UsableIds(GroupIds(s.groups))
    ensures ok ==> NodesOk(s) && Counts(NodeIds(s.nodes), parents, ChildLinks(s.nodes))
    ensures !ok ==> !LinksOk(s)
  {
    hide Tally, Counts, NodesOk, NodeFieldsOk;
    var groupUses;
    ok, groupUses, parents := CountRows(s);
    if !ok { return; }
    assert s.nodes[..|s.nodes|] == s.nodes;
    ok := forall k :: 0 <= k < |groupUses| ==> groupUses[k] == 1;
    EveryGroupHasOneLeaf(s, groupUses);
  }

  method CountRow(s: DockLayoutSnapshot, i: nat, groupUses: seq<nat>, parents: seq<nat>)
    returns (ok: bool, nextUses: seq<nat>, nextParents: seq<nat>)
    requires UsableIds(NodeIds(s.nodes)) && UsableIds(GroupIds(s.groups)) && i < |s.nodes|
    requires RowsCounted(s, i, groupUses, parents)
    ensures ok ==> NodeFieldsOk(s.nodes[i]) && RowsCounted(s, i + 1, nextUses, nextParents)
    ensures !ok ==> !LinksOk(s)
  {
    hide Tally, Counts, LeafGroups, ChildLinks, NodeIds, GroupIds, LinksOk;
    var n := s.nodes[i];
    nextUses, nextParents := groupUses, parents;
    OneKindOfRow(s.nodes, i);
    if n.kind == GroupNode {
      ok, nextUses := CountLeaf(s, i, groupUses);
      if !ok { return; }
      ok := n.first == 0 && n.second == 0;
    } else {
      ok, nextParents := CountChildren(s, i, parents);
      if !ok { return; }
      ok := n.group == 0 && ValidRatio(n.ratio);
    }
    if !ok { BadFields(s, n); }
  }

  method CountLeaf(s: DockLayoutSnapshot, i: nat, uses: seq<nat>) returns (ok: bool, next: seq<nat>)
    requires UsableIds(GroupIds(s.groups)) && i < |s.nodes| && s.nodes[i].kind == GroupNode
    requires Tally(GroupIds(s.groups), uses, LeafGroups(s.nodes[..i]))
    ensures ok ==> Tally(GroupIds(s.groups), next, LeafGroups(s.nodes[..i + 1]))
    ensures !ok ==> !LinksOk(s)
  {
    ghost var leaves := LeafGroups(s.nodes[..i]);
    LeafGroupsSplit(s.nodes, i);
    var index;
    ok, index, next := UseOnce(GroupIds(s.groups), uses, leaves, s.nodes[i].group);
    if !ok {
      assert (leaves + [s.nodes[i].group])[|leaves|] == LeafGroups(s.nodes)[|leaves|];
      assert LeafGroups(s.nodes)[..|leaves|] == leaves;
      NotAPermutation(GroupIds(s.groups), LeafGroups(s.nodes), |leaves|);
    }
  }

  lemma CountsSize(ids: seq<nat>, uses: seq<nat>, m: multiset<nat>)
    requires Counts(ids, uses, m)
    ensures |uses| == |ids|
  {}

  method CountChildren(s: DockLayoutSnapshot, i: nat, parents: seq<nat>) returns (ok: bool, next: seq<nat>)
    requires UsableIds(NodeIds(s.nodes)) && i < |s.nodes| && s.nodes[i].kind == SplitNode
    requires Counts(NodeIds(s.nodes), parents, ChildLinks(s.nodes[..i]))
    ensures ok ==> Counts(NodeIds(s.nodes), next, ChildLinks(s.nodes[..i + 1]))
    ensures !ok ==> !LinksOk(s)
  {
    hide Counts, ChildLinks, NodeIds, InDegreeOne;
    var ids, n := NodeIds(s.nodes), s.nodes[i];
    next := parents;
    CountsSize(ids, parents, ChildLinks(s.nodes[..i]));
    var first, second := IndexOf(ids, n.first), IndexOf(ids, n.second);
    if first.None? || second.None? || first == second {
      BadChild(s, i);
      return false, next;
    }
    ghost var links := ChildLinks(s.nodes[..i]);
    CountOneMore(ids, next, links, first.value);
    next := next[first.value := next[first.value] + 1];
    CountOneMore(ids, next, links + multiset{n.first}, second.value);
    next := next[second.value := next[second.value] + 1];
    ChildLinksSplit(s.nodes, i);
    assert links + multiset{n.first} + multiset{n.second} == ChildLinks(s.nodes[..i + 1]);
    ok := true;
  }

  // Collects the roots; every host must be well placed and own a row no other host or the main tree owns.
  method CollectRoots(s: DockLayoutSnapshot) returns (ok: bool, roots: seq<nat>)
    requires UsableIds(NodeIds(s.nodes))
    ensures ok ==> roots == Roots(s) && HostsOk(s)
    ensures !ok ==> !LinksOk(s)
  {
    roots := [s.mainRoot];
    var hostRoots := HostRoots(s.floatingHosts);
    assert hostRoots[..0] == [];
    for i := 0 to |s.floatingHosts|
      invariant roots == [s.mainRoot] + hostRoots[..i]
      invariant forall h :: h in s.floatingHosts[..i] ==> ValidPlacement(h.placement)
    {
      var host := s.floatingHosts[i];
      assert host in s.floatingHosts && hostRoots[i] == host.root;
      if !ValidPlacement(host.placement) { return false, roots; }
      if host.root !in NodeIds(s.nodes) {
        assert Roots(s)[i + 1] == host.root;
        BadRoots(s);
        return false, roots;
      }
      if host.root in roots {
        var j :| 0 <= j < |roots| && roots[j] == host.root;
        assert Roots(s)[j] == Roots(s)[i + 1];
        BadRoots(s);
        return false, roots;
      }
      roots := roots + [host.root];
      assert hostRoots[..i + 1] == hostRoots[..i] + [host.root];
      assert s.floatingHosts[..i + 1] == s.floatingHosts[..i] + [host];
    }
    assert hostRoots[..|hostRoots|] == hostRoots;
    assert s.floatingHosts[..|s.floatingHosts|] == s.floatingHosts;
    ok := true;
  }

  method CheckLinks(s: DockLayoutSnapshot) returns (ok: bool, roots: seq<nat>)
    requires UsableIds(NodeIds(s.nodes)) && UsableIds(GroupIds(s.groups))
    ensures ok <==> LinksOk(s)
    ensures ok ==> roots == Roots(s)
  {
    hide Counts, NodesOk, HostsOk, ChildLinks, Roots, NodeIds;
    roots := [];
    var parents;
    ok, parents := CountParents(s);
    if !ok { return; }
    ok, roots := CollectRoots(s);
    if !ok { return; }
    ok, parents := CountRoots(s, roots, parents);
    if !ok { return; }
    AllCountsOne(NodeIds(s.nodes), parents, ChildLinks(s.nodes) + multiset(roots));
    ok := forall k :: 0 <= k < |parents| ==> parents[k] == 1;
  }

  // Each root is owned once by the layout itself.
  method CountRoots(s: DockLayoutSnapshot, roots: seq<nat>, parents: seq<nat>) returns (ok: bool, next: seq<nat>)
    requires UsableIds(NodeIds(s.nodes)) && roots == Roots(s)
    requires Counts(NodeIds(s.nodes), parents, ChildLinks(s.nodes))
    ensures ok ==> Counts(NodeIds(s.nodes), next, ChildLinks(s.nodes) + multiset(roots))
    ensures !ok ==> !LinksOk(s)
  {
    var ids := NodeIds(s.nodes);
    ghost var links := ChildLinks(s.nodes);
    next := parents;
    assert links + multiset(roots[..0]) == links;
    for i := 0 to |roots|
      invariant Counts(ids, next, links + multiset(roots[..i]))
    {
      var index := IndexOf(ids, roots[i]);
      if index.None? {
        BadRoots(s);
        return false, next;
      }
      CountOneMore(ids, next, links + multiset(roots[..i]), index.value);
      next := next[index.value := next[index.value] + 1];
      assert roots[..i + 1] == roots[..i] + [roots[i]];
      assert links + multiset(roots[..i]) + multiset{roots[i]} == links + multiset(roots[..i + 1]);
    }
    assert roots[..|roots|] == roots;
    ok := true;
  }

  // Where the worklist loop stands: the visited rows, in order, and the rows still to visit.
  ghost predicate WalkReached(nodes: seq<DockNode>, roots: seq<nat>, order: seq<nat>, pending: seq<nat>) {
    Walk(nodes, roots, |order|) == WalkState(order, pending) && multiset(order) <= multiset(NodeIds(nodes))
  }

  ghost predicate Marked(ids: seq<nat>, visited: seq<bool>, order: seq<nat>) {
    |visited| == |ids| && forall k :: 0 <= k < |ids| ==> (visited[k] <==> ids[k] in order)
  }

  lemma MarkOne(ids: seq<nat>, visited: seq<bool>, order: seq<nat>, k: nat)
    requires NoDuplicates(ids) && Marked(ids, visited, order) && k < |ids|
    ensures |visited| == |ids| && (visited[k] <==> ids[k] in order)
    ensures Marked(ids, visited[k := true], order + [ids[k]])
  {}

  lemma NothingMarked(nodes: seq<DockNode>, roots: seq<nat>, visited: seq<bool>)
    requires |visited| == |nodes| && forall k :: 0 <= k < |visited| ==> !visited[k]
    ensures Marked(NodeIds(nodes), visited, []) && WalkReached(nodes, roots, [], roots)
  {}

  lemma AllMarked(ids: seq<nat>, visited: seq<bool>, order: seq<nat>)
    requires Marked(ids, visited, order)
    ensures (forall k :: 0 <= k < |visited| ==> visited[k]) <==> forall x :: x in ids ==> x in order
  {}

  lemma WalkProgress(nodes: seq<DockNode>, roots: seq<nat>, order: seq<nat>, pending: seq<nat>)
    requires UsableIds(NodeIds(nodes)) && InDegreeOne(nodes, roots)
    requires WalkReached(nodes, roots, order, pending) && pending != []
    ensures var id := pending[|pending| - 1];
            id in NodeIds(nodes) && id !in order && |order| < |NodeIds(nodes)| &&
            WalkReached(nodes, roots, order + [id], pending[..|pending| - 1] + Children(nodes, id))
  {
    WalkNeverRevisits(nodes, roots, |order|);
    SubmultisetLength(order + [pending[|pending| - 1]], NodeIds(nodes));
  }

  lemma ChildrenAt(nodes: seq<DockNode>, k: nat)
    requires NoDuplicates(NodeIds(nodes)) && k < |nodes|
    ensures Children(nodes, NodeIds(nodes)[k]) == if nodes[k].kind == SplitNode then [nodes[k].first, nodes[k].second] else []
  {
    FindNodeUnique(nodes, nodes[k]);
  }

  lemma UsableAreDistinct(nodes: seq<DockNode>)
    requires UsableIds(NodeIds(nodes))
    ensures NoDuplicates(NodeIds(nodes)) && |NodeIds(nodes)| == |nodes|
  {}

  // The worklist. Given the in-degree check, a popped row is never unknown and never visited before.
  method WalkTable(nodes: seq<DockNode>, roots: seq<nat>) returns (ok: bool)
    requires UsableIds(NodeIds(nodes)) && InDegreeOne(nodes, roots)
    ensures ok <==> exists ts :: IsForest(nodes, roots, ts)
  {
    var ids := NodeIds(nodes);
    var visited := Repeat(|nodes|, false);
    var pending := roots;
    ghost var order := [];
    NothingMarked(nodes, roots, visited);
    UsableAreDistinct(nodes);
    hide WalkReached, Marked, InDegreeOne, UsableIds, NodeIds, IsForest, Children, NoDuplicates;
    while pending != []
      invariant WalkReached(nodes, roots, order, pending)
      invariant Marked(ids, visited, order)
      decreases |ids| - |order|
    {
      WalkProgress(nodes, roots, order, pending);
      assert pending[..|pending| - 1] + [] == pending[..|pending| - 1];
      var id := pending[|pending| - 1];
      pending := pending[..|pending| - 1];
      var index := IndexOf(ids, id);
      if index.None? {
        assert false;
        return false;
      }
      MarkOne(ids, visited, order, index.value);
      if visited[index.value] {
        assert false;
        return false;
      }
      ChildrenAt(nodes, index.value);
      visited := visited[index.value := true];
      var node := nodes[index.value];
      if node.kind == SplitNode {
        pending := pending + [node.first, node.second];
      }
      order := order + [id];
    }
    ok := forall k :: 0 <= k < |visited| ==> visited[k];
    AllMarked(ids, visited, order);
    WalkDecides(nodes, roots, order);
  }

  lemma {:induction false} SubmultisetLength(xs: seq<nat>, ys: seq<nat>)
    requires multiset(xs) <= multiset(ys)
    ensures |xs| <= |ys|
  {
    if xs == [] {
    } else {
      var x, init := xs[|xs| - 1], xs[..|xs| - 1];
      assert xs == init + [x];
      assert x in multiset(ys);
      var j :| 0 <= j < |ys| && ys[j] == x;
      assert ys == ys[..j] + [x] + ys[j + 1..];
      TakeOne(multiset(xs), multiset(ys), multiset(init), multiset(ys[..j] + ys[j + 1..]), x);
      SubmultisetLength(init, ys[..j] + ys[j + 1..]);
    }
  }

  // A finished walk has seen every row exactly when the table is a forest.
  lemma WalkDecides(nodes: seq<DockNode>, roots: seq<nat>, order: seq<nat>)
    requires NoDuplicates(NodeIds(nodes))
    requires WalkReached(nodes, roots, order, [])
    ensures (forall x :: x in NodeIds(nodes) ==> x in order) <==> exists ts :: IsForest(nodes, roots, ts)
  {
    var ids := NodeIds(nodes);
    if forall x :: x in ids ==> x in order {
      NoDuplicatesMultiset(ids);
      forall x ensures multiset(order)[x] == multiset(ids)[x] {
        assert x in ids <==> x in multiset(ids);
        assert x in order <==> x in multiset(order);
        assert multiset(order)[x] <= multiset(ids)[x] <= 1;
      }
      forall x | x in order ensures x in ids { assert x in multiset(order); assert x in multiset(ids); }
      var ts := RebuildForest(nodes, roots, 0, |order|);
      assert IsForest(nodes, roots, ts);
    }
    if ts :| IsForest(nodes, roots, ts) {
      FinishedWalkCovers(nodes, roots, ts, |order|);
    }
  }

  lemma ForestLinks(s: DockLayoutSnapshot)
    requires UsableIds(NodeIds(s.nodes)) && HasForest(s)
    ensures InDegreeOne(s.nodes, Roots(s))
    ensures s.mainRoot != 0
  {
    var ts :| IsForest(s.nodes, Roots(s), ts);
    ForestInDegree(s.nodes, Roots(s), ts);
    assert Represents(s.nodes, Roots(s)[0], ts[0]);
  }

  // The answer about a snapshot: the stages in order, each with its own complaint.
  ghost function LayoutStatus(s: DockLayoutSnapshot): DockLayoutStatus {
    if s.mainRoot == 0 || !WithinSizes(s) then InvalidGraph
    else if !DistinctIds(s) then DuplicateId
    else if exists p :: p in s.panels && !(0 < |p.title| <= MAX_TITLE) then InvalidArgument
    else if GroupsStatus(s, 0) != Success then GroupsStatus(s, 0)
    else if ValidSnapshot(s) then Success
    else InvalidGraph
  }

  // The whole check accepts exactly the valid snapshots, and gives the first complaint about the others.
  method Validate(s: DockLayoutSnapshot) returns (status: DockLayoutStatus)
    ensures status == LayoutStatus(s)
    ensures status == Success <==> ValidSnapshot(s)
    ensures status in {Success, InvalidArgument, DuplicateId, InvalidGraph}
  {
    hide PlacementOk, TableOk, InDegreeOne, IsForest, UsableIds, Roots, NodeIds, PanelIds, GroupIds, HostIds, GroupsStatus;
    if UsableIds(NodeIds(s.nodes)) && HasForest(s) { ForestLinks(s); }
    if s.mainRoot == 0 || !WithinSizes(s) { return InvalidGraph; }
    var panels := HasDuplicate(PanelIds(s.panels));
    var groups := HasDuplicate(GroupIds(s.groups));
    var nodes := HasDuplicate(NodeIds(s.nodes));
    var hosts := HasDuplicate(HostIds(s.floatingHosts));
    if panels || groups || nodes || hosts { return DuplicateId; }
    var titled := CheckTitles(s.panels);
    if !titled { return InvalidArgument; }
    status := CheckPlacement(s);
    if status != Success { return; }
    var linked, roots := CheckLinks(s);
    if !linked { return InvalidGraph; }
    var reached := WalkTable(s.nodes, roots);
    if !reached { return InvalidGraph; }
    status := Success;
  }
}
