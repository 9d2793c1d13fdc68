// Splitting a leaf of the node table, and why it is insertion into the split tree.
module DockGraft {
  import opened Basics
  import opened DockTypes
  import opened DockForest
  import opened DockValidate

  // ---- redirecting the reference to a node ----

  function Redirect(id: nat, from: nat, to: nat): nat { if id == from then to else id }

  predicate Refers(n: DockNode, id: nat) {
    n.kind == SplitNode && (n.first == id || n.second == id)
  }

  // The row with its first reference redirected, as one pass of the source's loop does it.
  function RedirectOnce(n: DockNode, from: nat, to: nat): DockNode {
    if n.first == from then n.(first := to) else n.(second := to)
  }

  function FirstParent(nodes: seq<DockNode>, id: nat): (r: Option<nat>)
    ensures r.Some? ==> r.value < |nodes| && Refers(nodes[r.value], id) &&
                        forall k :: 0 <= k < r.value ==> !Refers(nodes[k], id)
    ensures r.None? ==> forall n :: n in nodes ==> !Refers(n, id)
  {
    if nodes == [] then None
    else if Refers(nodes[0], id) then Some(0)
    else match FirstParent(nodes[1..], id)
      case None => None
      case Some(i) =>
        assert forall k :: 0 < k < i + 1 ==> nodes[k] == nodes[1..][k - 1];
        Some(i + 1)
  }

  // Redirects the first reference found: the main root, then the hosts, then the rows.
  function ReplaceFirst(s: DockLayoutSnapshot, from: nat, to: nat): Option<DockLayoutSnapshot> {
    if s.mainRoot == from then Some(s.(mainRoot := to))
    else match IndexOf(HostRoots(s.floatingHosts), from)
      case Some(i) =>
        Some(s.(floatingHosts := s.floatingHosts[i := s.floatingHosts[i].(root := to)]))
      case None =>
        match FirstParent(s.nodes, from)
        case Some(i) => Some(s.(nodes := s.nodes[i := RedirectOnce(s.nodes[i], from, to)]))
        case None => None
  }

  method ReplaceNodeReference(s: DockLayoutSnapshot, from: nat, to: nat) returns (found: bool, r: DockLayoutSnapshot)
    ensures found <==> ReplaceFirst(s, from, to).Some?
    ensures r == if found then ReplaceFirst(s, from, to).value else s
  {
    r := s;
    if s.mainRoot == from { return true, s.(mainRoot := to); }
    for i := 0 to |s.floatingHosts|
      invariant forall k :: 0 <= k < i ==> s.floatingHosts[k].root != from
    {
      if s.floatingHosts[i].root == from {
        FirstIndex(HostRoots(s.floatingHosts), i);
        return true, s.(floatingHosts := s.floatingHosts[i := s.floatingHosts[i].(root := to)]);
      }
    }
    for i := 0 to |s.nodes|
      invariant forall k :: 0 <= k < i ==> !Refers(s.nodes[k], from)
    {
      var node := s.nodes[i];
      if node.kind == SplitNode {
        if node.first == from {
          FirstParentAt(s.nodes, from, i);
          return true, s.(nodes := s.nodes[i := node.(first := to)]);
        }
        if node.second == from {
          FirstParentAt(s.nodes, from, i);
          return true, s.(nodes := s.nodes[i := node.(second := to)]);
        }
      }
    }
    found := false;
  }

  lemma {:induction false} FirstIndex(ids: seq<nat>, i: nat)
    requires i < |ids| && forall k :: 0 <= k < i ==> ids[k] != ids[i]
    ensures IndexOf(ids, ids[i]) == Some(i)
  {
    if i == 0 {
    } else {
      assert ids[1..][i - 1] == ids[i] && ids[0] != ids[i];
      FirstIndex(ids[1..], i - 1);
    }
  }

  lemma FirstParentAt(nodes: seq<DockNode>, id: nat, i: nat)
    requires i < |nodes| && Refers(nodes[i], id) && forall k :: 0 <= k < i ==> !Refers(nodes[k], id)
    ensures FirstParent(nodes, id) == Some(i)
  {
    var r := FirstParent(nodes, id);
    assert nodes[i] in nodes;
  }

  // The substitution of every reference at once.
  function RedirectRow(n: DockNode, from: nat, to: nat): DockNode {
    if n.kind == SplitNode then n.(first := Redirect(n.first, from, to), second := Redirect(n.second, from, to)) else n
  }

  function RedirectRows(nodes: seq<DockNode>, from: nat, to: nat): (r: seq<DockNode>)
    ensures |r| == |nodes| && forall i :: 0 <= i < |r| ==> r[i] == RedirectRow(nodes[i], from, to)
  {
    if nodes == [] then [] else [RedirectRow(nodes[0], from, to)] + RedirectRows(nodes[1..], from, to)
  }

  function RedirectHosts(hosts: seq<DockFloatingHost>, from: nat, to: nat): (r: seq<DockFloatingHost>)
    ensures |r| == |hosts| && forall i :: 0 <= i < |r| ==> r[i] == hosts[i].(root := Redirect(hosts[i].root, from, to))
  {
    if hosts == [] then []
    else [hosts[0].(root := Redirect(hosts[0].root, from, to))] + RedirectHosts(hosts[1..], from, to)
  }

  function ReplaceAll(s: DockLayoutSnapshot, from: nat, to: nat): DockLayoutSnapshot {
    s.(mainRoot := Redirect(s.mainRoot, from, to),
       floatingHosts := RedirectHosts(s.floatingHosts, from, to),
       nodes := RedirectRows(s.nodes, from, to))
  }

  lemma RowLinks(nodes: seq<DockNode>, i: nat)
    requires i < |nodes|
    ensures Links(nodes[i]) <= ChildLinks(nodes)
  {
    ChildLinksSplit(nodes, i);
  }

  lemma TwoRowLinks(nodes: seq<DockNode>, i: nat, j: nat)
    requires i < j < |nodes|
    ensures Links(nodes[i]) + Links(nodes[j]) <= ChildLinks(nodes)
  {
    RowLinks(nodes[..j], i);
    ChildLinksSplit(nodes, j);
  }

  lemma NoLinksNoReference(nodes: seq<DockNode>, id: nat)
    requires ChildLinks(nodes)[id] == 0
    ensures forall n :: n in nodes ==> !Refers(n, id)
  {
    forall n | n in nodes ensures !Refers(n, id) {
      var i :| 0 <= i < |nodes| && nodes[i] == n;
      RowLinks(nodes, i);
      assert Links(n)[id] <= ChildLinks(nodes)[id];
    }
  }

  lemma LinksOfReferrer(n: DockNode, id: nat)
    requires Refers(n, id)
    ensures Links(n)[id] >= 1 && (n.first == n.second ==> Links(n)[id] == 2)
  {}

  lemma OnlyOneOfTwo(nodes: seq<DockNode>, id: nat, i: nat, j: nat)
    requires ChildLinks(nodes)[id] <= 1 && i < j < |nodes|
    ensures !Refers(nodes[i], id) || !Refers(nodes[j], id)
  {
    hide ChildLinks, Links, Refers;
    TwoRowLinks(nodes, i, j);
    if Refers(nodes[i], id) && Refers(nodes[j], id) {
      LinksOfReferrer(nodes[i], id);
      LinksOfReferrer(nodes[j], id);
    }
  }

  lemma OneLinkOneReference(nodes: seq<DockNode>, id: nat, i: nat)
    requires ChildLinks(nodes)[id] <= 1 && i < |nodes| && Refers(nodes[i], id)
    ensures nodes[i].first != nodes[i].second
    ensures forall j :: 0 <= j < |nodes| && j != i ==> !Refers(nodes[j], id)
  {
    hide ChildLinks, Links, Refers;
    RowLinks(nodes, i);
    LinksOfReferrer(nodes[i], id);
    forall j | 0 <= j < |nodes| && j != i ensures !Refers(nodes[j], id) {
      if i < j { OnlyOneOfTwo(nodes, id, i, j); } else { OnlyOneOfTwo(nodes, id, j, i); }
    }
  }

  lemma NothingToRedirect(nodes: seq<DockNode>, from: nat, to: nat)
    requires forall n :: n in nodes ==> !Refers(n, from)
    ensures RedirectRows(nodes, from, to) == nodes
  {
    forall i | 0 <= i < |nodes| ensures RedirectRow(nodes[i], from, to) == nodes[i] {
      assert nodes[i] in nodes;
    }
  }

  lemma HostsUnchanged(hosts: seq<DockFloatingHost>, from: nat, to: nat)
    requires from !in HostRoots(hosts)
    ensures RedirectHosts(hosts, from, to) == hosts
  {
    forall i | 0 <= i < |hosts| ensures RedirectHosts(hosts, from, to)[i] == hosts[i] {
      assert HostRoots(hosts)[i] == hosts[i].root;
    }
  }

  lemma RootCounts(s: DockLayoutSnapshot, id: nat)
    ensures multiset(Roots(s))[id] == (if s.mainRoot == id then 1 else 0) + multiset(HostRoots(s.floatingHosts))[id]
    ensures id in HostRoots(s.floatingHosts) <==> multiset(HostRoots(s.floatingHosts))[id] > 0
  {
    assert id in multiset(HostRoots(s.floatingHosts)) <==> id in HostRoots(s.floatingHosts);
  }

  // On a table where every node is referred to once, the first reference is the only one.
  lemma FirstReplacementIsFull(s: DockLayoutSnapshot, from: nat, to: nat)
    requires multiset(Roots(s))[from] + ChildLinks(s.nodes)[from] == 1
    ensures ReplaceFirst(s, from, to) == Some(ReplaceAll(s, from, to))
  {
    var hostRoots := HostRoots(s.floatingHosts);
    RootCounts(s, from);
    if ChildLinks(s.nodes)[from] == 0 {
      NoLinksNoReference(s.nodes, from);
      NothingToRedirect(s.nodes, from, to);
      hide HostRoots, Roots, ChildLinks, RedirectRows, RedirectHosts, FirstParent;
      if s.mainRoot == from {
        HostsUnchanged(s.floatingHosts, from, to);
      } else {
        var i := IndexOf(hostRoots, from).value;
        OnlyOne(hostRoots, from, i);
        HostReferenceIsFull(s.floatingHosts, i, from, to);
      }
    } else {
      hide HostRoots, Roots, ChildLinks, RedirectRows, RedirectHosts, FirstParent;
      HostsUnchanged(s.floatingHosts, from, to);
      RowReferenceIsFull(s.nodes, from, to);
    }
  }

  lemma HostReferenceIsFull(hosts: seq<DockFloatingHost>, i: nat, from: nat, to: nat)
    requires i < |hosts| && HostRoots(hosts)[i] == from
    requires forall j :: 0 <= j < |HostRoots(hosts)| && j != i ==> HostRoots(hosts)[j] != from
    ensures RedirectHosts(hosts, from, to) == hosts[i := hosts[i].(root := to)]
  {
    forall j | 0 <= j < |hosts| ensures RedirectHosts(hosts, from, to)[j] == hosts[i := hosts[i].(root := to)][j] {
      assert HostRoots(hosts)[j] == hosts[j].root;
    }
  }

  lemma OnlyOne(xs: seq<nat>, x: nat, i: nat)
    requires multiset(xs)[x] == 1 && i < |xs| && xs[i] == x
    ensures forall j :: 0 <= j < |xs| && j != i ==> xs[j] != x
  {
    assert xs == xs[..i] + [x] + xs[i + 1..];
    assert x !in multiset(xs[..i]) && x !in multiset(xs[i + 1..]);
    forall j | 0 <= j < |xs| && j != i ensures xs[j] != x {
      if j < i { assert xs[j] in xs[..i]; } else { assert xs[j] in xs[i + 1..]; }
    }
  }

  lemma RowReferenceIsFull(nodes: seq<DockNode>, from: nat, to: nat)
    requires ChildLinks(nodes)[from] == 1
    ensures FirstParent(nodes, from).Some?
    ensures var i := FirstParent(nodes, from).value;
            RedirectRows(nodes, from, to) == nodes[i := RedirectOnce(nodes[i], from, to)]
  {
    ReferenceExists(nodes, from);
    var i := FirstParent(nodes, from).value;
    OneLinkOneReference(nodes, from, i);
  }

  lemma {:induction false} ReferenceExists(nodes: seq<DockNode>, id: nat)
    requires ChildLinks(nodes)[id] > 0
    ensures exists n :: n in nodes && Refers(n, id)
  {
    var last := nodes[|nodes| - 1];
    if Refers(last, id) {
      assert last in nodes;
    } else {
      ReferenceExists(nodes[..|nodes| - 1], id);
    }
  }

  // ---- grafting ----

  function LeafRow(id: nat, group: nat): DockNode {
    DockNode(id, GroupNode, group, Vertical, 0, 0, 0.5)
  }

  predicate NewFirst(edge: DockEdge) { edge == LeftEdge || edge == TopEdge }

  function OrientationFor(edge: DockEdge): DockSplitOrientation {
    if edge == LeftEdge || edge == RightEdge then Vertical else Horizontal
  }

  function SplitRow(id: nat, groupNode: nat, target: nat, edge: DockEdge, ratio: real): DockNode {
    DockNode(id, SplitNode, 0, OrientationFor(edge),
             if NewFirst(edge) then groupNode else target,
             if NewFirst(edge) then target else groupNode, ratio)
  }

  // The table edits of a split: a new leaf row, the target's reference redirected, a new split row.
  function GraftTable(s: DockLayoutSnapshot, groupNode: nat, group: nat, target: nat, splitNode: nat,
                      edge: DockEdge, ratio: real): Option<DockLayoutSnapshot>
  {
    match ReplaceFirst(s.(nodes := s.nodes + [LeafRow(groupNode, group)]), target, splitNode)
    case None => None
    case Some(r) => Some(r.(nodes := r.nodes + [SplitRow(splitNode, groupNode, target, edge, ratio)]))
  }

  // The algebraic counterpart: replace the leaf `target` by a split of it and a new leaf.
  ghost function Graft(t: Tree, target: nat, groupNode: nat, group: nat, splitNode: nat, edge: DockEdge, ratio: real): Tree {
    match t
    case Leaf(id, g) =>
      if id != target then t
      else if NewFirst(edge) then Split(splitNode, OrientationFor(edge), ratio, Leaf(groupNode, group), t)
      else Split(splitNode, OrientationFor(edge), ratio, t, Leaf(groupNode, group))
    case Split(id, o, r, first, second) =>
      Split(id, o, r, Graft(first, target, groupNode, group, splitNode, edge, ratio),
                      Graft(second, target, groupNode, group, splitNode, edge, ratio))
  }

  ghost function GraftAll(ts: seq<Tree>, target: nat, groupNode: nat, group: nat, splitNode: nat, edge: DockEdge, ratio: real): (r: seq<Tree>)
    ensures |r| == |ts| && forall i :: 0 <= i < |r| ==> r[i] == Graft(ts[i], target, groupNode, group, splitNode, edge, ratio)
  {
    if ts == [] then []
    else GraftAll(ts[..|ts| - 1], target, groupNode, group, splitNode, edge, ratio) +
         [Graft(ts[|ts| - 1], target, groupNode, group, splitNode, edge, ratio)]
  }

  // Insertion next to an element of a sequence.
  ghost function InsertBeside(xs: seq<nat>, x: nat, y: nat, before: bool): seq<nat> {
    if xs == [] then []
    else (if xs[0] != x then [xs[0]] else if before then [y, x] else [x, y]) + InsertBeside(xs[1..], x, y, before)
  }

  lemma {:induction false} InsertBesideConcat(a: seq<nat>, b: seq<nat>, x: nat, y: nat, before: bool)
    ensures InsertBeside(a + b, x, y, before) == InsertBeside(a, x, y, before) + InsertBeside(b, x, y, before)
  {
    if a == [] {
      assert a + b == b;
    } else {
      assert (a + b)[1..] == a[1..] + b;
      InsertBesideConcat(a[1..], b, x, y, before);
    }
  }

  // In t, exactly the leaf with id target shows the group.
  ghost predicate NamesGroup(t: Tree, target: nat, group: nat) {
    match t
    case Leaf(id, g) => id == target <==> g == group
    case Split(_, _, _, first, second) => NamesGroup(first, target, group) && NamesGroup(second, target, group)
  }

  // Grafting keeps the display order and puts the new group right beside the target.
  lemma {:induction false} GraftOrder(t: Tree, target: nat, targetGroup: nat, groupNode: nat, group: nat, splitNode: nat, edge: DockEdge, ratio: real)
    requires NamesGroup(t, target, targetGroup)
    ensures Leaves(Graft(t, target, groupNode, group, splitNode, edge, ratio)) ==
            InsertBeside(Leaves(t), targetGroup, group, NewFirst(edge))
  {
    match t
    case Leaf(id, g) =>
      assert InsertBeside([], targetGroup, group, NewFirst(edge)) == [];
    case Split(_, _, _, first, second) =>
      GraftOrder(first, target, targetGroup, groupNode, group, splitNode, edge, ratio);
      GraftOrder(second, target, targetGroup, groupNode, group, splitNode, edge, ratio);
      InsertBesideConcat(Leaves(first), Leaves(second), targetGroup, group, NewFirst(edge));
  }

  lemma {:induction false} GraftElsewhere(t: Tree, target: nat, groupNode: nat, group: nat, splitNode: nat, edge: DockEdge, ratio: real)
    requires target !in TreeIds(t)
    ensures Graft(t, target, groupNode, group, splitNode, edge, ratio) == t
  {
    if t.Leaf? {
    } else {
      GraftElsewhere(t.first, target, groupNode, group, splitNode, edge, ratio);
      GraftElsewhere(t.second, target, groupNode, group, splitNode, edge, ratio);
    }
  }

  ghost predicate LeafIn(t: Tree, target: nat) {
    match t
    case Leaf(id, _) => true
    case Split(id, _, _, first, second) => id != target && LeafIn(first, target) && LeafIn(second, target)
  }

  lemma SplitOnce(id: nat, a: multiset<nat>, b: multiset<nat>, x: nat, extra: multiset<nat>)
    requires id != x && (multiset{id} + a + b)[x] <= 1
    ensures multiset{id} + (a + if x in a then extra else multiset{}) + (b + if x in b then extra else multiset{}) ==
            multiset{id} + a + b + if x in multiset{id} + a + b then extra else multiset{}
  {
    assert a[x] == 0 || b[x] == 0;
  }

  lemma {:induction false} GraftIds(t: Tree, target: nat, groupNode: nat, group: nat, splitNode: nat, edge: DockEdge, ratio: real)
    requires TreeIds(t)[target] <= 1 && LeafIn(t, target)
    ensures TreeIds(Graft(t, target, groupNode, group, splitNode, edge, ratio)) ==
            TreeIds(t) + (if target in TreeIds(t) then multiset{groupNode, splitNode} else multiset{})
  {
    if t.Split? {
      var first, second := TreeIds(t.first), TreeIds(t.second);
      assert TreeIds(t) == multiset{t.id} + first + second;
      GraftIds(t.first, target, groupNode, group, splitNode, edge, ratio);
      GraftIds(t.second, target, groupNode, group, splitNode, edge, ratio);
      SplitOnce(t.id, first, second, target, multiset{groupNode, splitNode});
    } else {
      GraftLeafIds(t, target, groupNode, group, splitNode, edge, ratio);
    }
  }

  lemma LeafOnce(split: nat, leaf: nat, id: nat)
    ensures multiset{split} + multiset{leaf} + multiset{id} == multiset{id} + multiset{leaf, split}
    ensures multiset{split} + multiset{id} + multiset{leaf} == multiset{id} + multiset{leaf, split}
  {}

  lemma {:induction false} GraftLeafIds(t: Tree, target: nat, groupNode: nat, group: nat, splitNode: nat, edge: DockEdge, ratio: real)
    requires t.Leaf?
    ensures TreeIds(Graft(t, target, groupNode, group, splitNode, edge, ratio)) ==
            TreeIds(t) + (if target in TreeIds(t) then multiset{groupNode, splitNode} else multiset{})
  {
    var leaf := Leaf(groupNode, group);
    assert TreeIds(t) == multiset{t.id} && TreeIds(leaf) == multiset{groupNode};
    LeafOnce(splitNode, groupNode, t.id);
    if t.id == target {
      if NewFirst(edge) {
        assert TreeIds(Split(splitNode, OrientationFor(edge), ratio, leaf, t)) == multiset{splitNode} + multiset{groupNode} + multiset{t.id};
      } else {
        assert TreeIds(Split(splitNode, OrientationFor(edge), ratio, t, leaf)) == multiset{splitNode} + multiset{t.id} + multiset{groupNode};
      }
    }
  }

  lemma {:induction false} GraftAllIds(ts: seq<Tree>, target: nat, groupNode: nat, group: nat, splitNode: nat, edge: DockEdge, ratio: real)
    requires ForestIds(ts)[target] <= 1 && forall i :: 0 <= i < |ts| ==> LeafIn(ts[i], target)
    ensures ForestIds(GraftAll(ts, target, groupNode, group, splitNode, edge, ratio)) ==
            ForestIds(ts) + (if target in ForestIds(ts) then multiset{groupNode, splitNode} else multiset{})
  {
    if ts == [] {
    } else {
      var k := |ts| - 1;
      GraftAllIds(ts[..k], target, groupNode, group, splitNode, edge, ratio);
      GraftIds(ts[k], target, groupNode, group, splitNode, edge, ratio);
      var before := GraftAll(ts[..k], target, groupNode, group, splitNode, edge, ratio);
      var last := Graft(ts[k], target, groupNode, group, splitNode, edge, ratio);
      assert GraftAll(ts, target, groupNode, group, splitNode, edge, ratio) == before + [last];
      assert (before + [last])[..k] == before;
      assert ForestIds(before + [last]) == ForestIds(before) + TreeIds(last);
      hide ForestIds, TreeIds, Graft, GraftAll, LeafIn;
      AddOnce(ForestIds(ts[..k]), TreeIds(ts[k]), target, multiset{groupNode, splitNode});
    }
  }

  lemma AddOnce(a: multiset<nat>, b: multiset<nat>, x: nat, extra: multiset<nat>)
    requires (a + b)[x] <= 1
    ensures (a + (if x in a then extra else multiset{})) + (b + (if x in b then extra else multiset{})) ==
            (a + b) + (if x in a + b then extra else multiset{})
  {}

  // A leaf row never heads a split.
  lemma {:induction false} LeafRowIsLeaf(nodes: seq<DockNode>, id: nat, t: Tree, target: nat)
    requires Represents(nodes, id, t)
    requires FindNode(nodes, target).Some? && FindNode(nodes, target).value.kind == GroupNode
    ensures LeafIn(t, target)
    decreases t
  {
    if t.Leaf? {
    } else {
      var n := FindNode(nodes, id).value;
      LeafRowIsLeaf(nodes, n.first, t.first, target);
      LeafRowIsLeaf(nodes, n.second, t.second, target);
    }
  }

  // After is Before with the target's reference redirected, a leaf row and a split row added.
  ghost predicate Grafted(before: seq<DockNode>, after: seq<DockNode>, target: nat, groupNode: nat, group: nat,
                          splitNode: nat, edge: DockEdge, ratio: real)
  {
    && (forall x :: x in NodeIds(before) ==>
          FindNode(before, x).Some? && FindNode(after, x) == Some(RedirectRow(FindNode(before, x).value, target, splitNode)))
    && FindNode(after, groupNode) == Some(LeafRow(groupNode, group))
    && FindNode(after, splitNode) == Some(SplitRow(splitNode, groupNode, target, edge, ratio))
    && FindNode(before, target).Some? && FindNode(before, target).value.kind == GroupNode
  }

  lemma {:induction false} GraftRepresents(before: seq<DockNode>, after: seq<DockNode>, id: nat, t: Tree, target: nat,
                                           groupNode: nat, group: nat, splitNode: nat, edge: DockEdge, ratio: real)
    requires Grafted(before, after, target, groupNode, group, splitNode, edge, ratio)
    requires Represents(before, id, t)
    ensures Represents(after, Redirect(id, target, splitNode), Graft(t, target, groupNode, group, splitNode, edge, ratio))
    decreases t
  {
    hide FindNode;
    var n := FindNode(before, id).value;
    assert id in NodeIds(before) && n.id == id;
    if t.Split? {
      GraftRepresents(before, after, n.first, t.first, target, groupNode, group, splitNode, edge, ratio);
      GraftRepresents(before, after, n.second, t.second, target, groupNode, group, splitNode, edge, ratio);
      assert FindNode(after, id).value == RedirectRow(n, target, splitNode);
    } else if id == target {
      assert FindNode(after, id).value == n;
      assert Represents(after, target, t);
      assert Represents(after, groupNode, Leaf(groupNode, group));
    }
  }

  predicate FreshGraft(s: DockLayoutSnapshot, groupNode: nat, target: nat, splitNode: nat) {
    && groupNode != 0 && splitNode != 0 && groupNode != splitNode
    && groupNode !in NodeIds(s.nodes) && splitNode !in NodeIds(s.nodes)
    && (exists n :: n in s.nodes && n.id == target && n.kind == GroupNode)
  }

  lemma FindNodeAt(nodes: seq<DockNode>, k: nat)
    requires NoDuplicates(NodeIds(nodes)) && k < |nodes|
    ensures FindNode(nodes, nodes[k].id) == Some(nodes[k])
  {
    IndexOfUnique(NodeIds(nodes), k);
  }

  lemma IdPosition(nodes: seq<DockNode>, x: nat) returns (k: nat)
    requires x in NodeIds(nodes)
    ensures k < |nodes| && nodes[k].id == x
  {
    k :| 0 <= k < |nodes| && NodeIds(nodes)[k] == x;
  }

  lemma RedirectKeepsId(n: DockNode, from: nat, to: nat)
    ensures RedirectRow(n, from, to).id == n.id
  {}

  lemma GraftedIds(s: DockLayoutSnapshot, groupNode: nat, group: nat, target: nat, splitNode: nat, edge: DockEdge, ratio: real)
    requires UsableIds(NodeIds(s.nodes)) && FreshGraft(s, groupNode, target, splitNode)
    ensures var redirected := RedirectRows(s.nodes, target, splitNode);
            var rows := redirected + [LeafRow(groupNode, group)] + [SplitRow(splitNode, groupNode, target, edge, ratio)];
            && |redirected| == |s.nodes| && (forall i :: 0 <= i < |redirected| ==> redirected[i] == RedirectRow(s.nodes[i], target, splitNode))
            && NodeIds(rows) == NodeIds(s.nodes) + [groupNode, splitNode] && UsableIds(NodeIds(rows))
            && LeafRow(groupNode, group).id == groupNode && SplitRow(splitNode, groupNode, target, edge, ratio).id == splitNode
  {
    var rows := RedirectRows(s.nodes, target, splitNode) + [LeafRow(groupNode, group)] +
                [SplitRow(splitNode, groupNode, target, edge, ratio)];
    assert NodeIds(rows) == NodeIds(s.nodes) + [groupNode, splitNode];
  }

  lemma GraftedTable(s: DockLayoutSnapshot, groupNode: nat, group: nat, target: nat, splitNode: nat, edge: DockEdge, ratio: real)
    requires UsableIds(NodeIds(s.nodes)) && FreshGraft(s, groupNode, target, splitNode)
    ensures var rows := RedirectRows(s.nodes, target, splitNode) + [LeafRow(groupNode, group)] +
                        [SplitRow(splitNode, groupNode, target, edge, ratio)];
            && NodeIds(rows) == NodeIds(s.nodes) + [groupNode, splitNode]
            && UsableIds(NodeIds(rows))
            && Grafted(s.nodes, rows, target, groupNode, group, splitNode, edge, ratio)
  {
    var redirected := RedirectRows(s.nodes, target, splitNode);
    var rows := redirected + [LeafRow(groupNode, group)] + [SplitRow(splitNode, groupNode, target, edge, ratio)];
    hide FindNode, RedirectRows, RedirectRow, NodeIds, LeafRow, SplitRow;
    GraftedIds(s, groupNode, group, target, splitNode, edge, ratio);
    forall x | x in NodeIds(s.nodes)
      ensures FindNode(s.nodes, x).Some? && FindNode(rows, x) == Some(RedirectRow(FindNode(s.nodes, x).value, target, splitNode))
    {
      var k := IdPosition(s.nodes, x);
      FindNodeAt(s.nodes, k);
      FindNodeAt(rows, k);
      assert rows[k] == redirected[k];
      RedirectKeepsId(s.nodes[k], target, splitNode);
    }
    FindNodeAt(rows, |s.nodes|);
    FindNodeAt(rows, |s.nodes| + 1);
    var n :| n in s.nodes && n.id == target && n.kind == GroupNode;
    FindNodeUnique(s.nodes, n);
  }

  // What GraftTable makes of a valid table.
  function GraftedSnapshot(s: DockLayoutSnapshot, groupNode: nat, group: nat, target: nat, splitNode: nat,
                           edge: DockEdge, ratio: real): DockLayoutSnapshot
  {
    s.(mainRoot := Redirect(s.mainRoot, target, splitNode),
       floatingHosts := RedirectHosts(s.floatingHosts, target, splitNode),
       nodes := RedirectRows(s.nodes, target, splitNode) + [LeafRow(groupNode, group)] +
                [SplitRow(splitNode, groupNode, target, edge, ratio)])
  }

  lemma GraftTableResult(s: DockLayoutSnapshot, groupNode: nat, group: nat, target: nat, splitNode: nat, edge: DockEdge,
                         ratio: real, ts: seq<Tree>)
    requires UsableIds(NodeIds(s.nodes)) && IsForest(s.nodes, Roots(s), ts)
    requires FreshGraft(s, groupNode, target, splitNode)
    ensures GraftTable(s, groupNode, group, target, splitNode, edge, ratio) ==
            Some(GraftedSnapshot(s, groupNode, group, target, splitNode, edge, ratio))
  {
    var s1 := s.(nodes := s.nodes + [LeafRow(groupNode, group)]);
    LeafRowHasNoLinks(s.nodes, LeafRow(groupNode, group));
    TargetReferredOnce(s, target, ts);
    assert Roots(s1) == Roots(s);
    FirstReplacementIsFull(s1, target, splitNode);
    RedirectAppend(s.nodes, LeafRow(groupNode, group), target, splitNode);
  }

  lemma RootsRedirected(s: DockLayoutSnapshot, from: nat, to: nat, r: DockLayoutSnapshot)
    requires r.mainRoot == Redirect(s.mainRoot, from, to) && r.floatingHosts == RedirectHosts(s.floatingHosts, from, to)
    ensures |Roots(r)| == |Roots(s)| && forall i :: 0 <= i < |Roots(r)| ==> Roots(r)[i] == Redirect(Roots(s)[i], from, to)
  {}

  // A split of a valid table is a graft of its forest.
  lemma GraftRefines(s: DockLayoutSnapshot, groupNode: nat, group: nat, target: nat, splitNode: nat, edge: DockEdge,
                     ratio: real, ts: seq<Tree>)
    requires UsableIds(NodeIds(s.nodes)) && IsForest(s.nodes, Roots(s), ts)
    requires FreshGraft(s, groupNode, target, splitNode)
    ensures var r := GraftTable(s, groupNode, group, target, splitNode, edge, ratio);
            r.Some? && IsForest(r.value.nodes, Roots(r.value), GraftAll(ts, target, groupNode, group, splitNode, edge, ratio))
  {
    GraftTableResult(s, groupNode, group, target, splitNode, edge, ratio, ts);
    GraftedTable(s, groupNode, group, target, splitNode, edge, ratio);
    var r := GraftedSnapshot(s, groupNode, group, target, splitNode, edge, ratio);
    RootsRedirected(s, target, splitNode, r);
    hide IsForest, Grafted, GraftTable, FreshGraft, Roots, NodeIds, UsableIds;
    GraftForest(s, r.nodes, Roots(r), groupNode, group, target, splitNode, edge, ratio, ts);
  }

  lemma LeafRowHasNoLinks(nodes: seq<DockNode>, row: DockNode)
    requires row.kind == GroupNode
    ensures ChildLinks(nodes + [row]) == ChildLinks(nodes)
  {
    assert (nodes + [row])[..|nodes|] == nodes;
  }

  lemma RedirectAppend(nodes: seq<DockNode>, row: DockNode, from: nat, to: nat)
    requires row.kind == GroupNode
    ensures RedirectRows(nodes + [row], from, to) == RedirectRows(nodes, from, to) + [row]
  {}

  lemma TargetReferredOnce(s: DockLayoutSnapshot, target: nat, ts: seq<Tree>)
    requires UsableIds(NodeIds(s.nodes)) && IsForest(s.nodes, Roots(s), ts)
    requires exists n :: n in s.nodes && n.id == target && n.kind == GroupNode
    ensures multiset(Roots(s))[target] + ChildLinks(s.nodes)[target] == 1
  {
    ForestInDegree(s.nodes, Roots(s), ts);
    var n :| n in s.nodes && n.id == target && n.kind == GroupNode;
    var k :| 0 <= k < |s.nodes| && s.nodes[k] == n;
    assert NodeIds(s.nodes)[k] == target;
    NoDuplicatesMultiset(NodeIds(s.nodes));
    assert multiset(NodeIds(s.nodes))[target] == 1;
    assert (multiset(Roots(s)) + ChildLinks(s.nodes))[target] == 1;
  }

  lemma GraftForest(s: DockLayoutSnapshot, rows: seq<DockNode>, roots: seq<nat>, groupNode: nat, group: nat, target: nat,
                    splitNode: nat, edge: DockEdge, ratio: real, ts: seq<Tree>)
    requires UsableIds(NodeIds(s.nodes)) && IsForest(s.nodes, Roots(s), ts)
    requires Grafted(s.nodes, rows, target, groupNode, group, splitNode, edge, ratio)
    requires NodeIds(rows) == NodeIds(s.nodes) + [groupNode, splitNode]
    requires |roots| == |Roots(s)| && forall i :: 0 <= i < |roots| ==> roots[i] == Redirect(Roots(s)[i], target, splitNode)
    ensures IsForest(rows, roots, GraftAll(ts, target, groupNode, group, splitNode, edge, ratio))
  {
    hide Represents, FindNode, NodeIds, Roots, Graft, GraftAll, ForestIds, TreeIds, LeafIn, Redirect;
    var us := GraftAll(ts, target, groupNode, group, splitNode, edge, ratio);
    forall i | 0 <= i < |us| ensures Represents(rows, roots[i], us[i]) {
      GraftRepresents(s.nodes, rows, Roots(s)[i], ts[i], target, groupNode, group, splitNode, edge, ratio);
    }
    forall i | 0 <= i < |ts| ensures LeafIn(ts[i], target) {
      LeafRowIsLeaf(s.nodes, Roots(s)[i], ts[i], target);
    }
    assert target in multiset(NodeIds(s.nodes)) by { assert target in NodeIds(s.nodes); }
    NoDuplicatesMultiset(NodeIds(s.nodes));
    GraftAllIds(ts, target, groupNode, group, splitNode, edge, ratio);
  }

  // Exactly the target's leaf names its group.
  lemma {:induction false} RepresentedNames(nodes: seq<DockNode>, id: nat, t: Tree, target: nat, group: nat)
    requires Represents(nodes, id, t)
    requires forall n :: n in nodes && n.kind == GroupNode ==> (n.id == target <==> n.group == group)
    ensures NamesGroup(t, target, group)
    decreases t
  {
    hide FindNode;
    var n := FindNode(nodes, id).value;
    if t.Leaf? {
    } else {
      RepresentedNames(nodes, n.first, t.first, target, group);
      RepresentedNames(nodes, n.second, t.second, target, group);
    }
  }
}
