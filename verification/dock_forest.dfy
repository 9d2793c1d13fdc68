// Split trees as algebraic data, and what it means for a node table to be a forest of them.
module DockForest {
  import opened Basics
  import opened DockTypes

  datatype Tree =
    | Leaf(id: nat, group: nat)
    | Split(id: nat, orientation: DockSplitOrientation, ratio: real, first: Tree, second: Tree)

  // The table, entered at id, spells out the tree t.
  ghost predicate Represents(nodes: seq<DockNode>, id: nat, t: Tree)
    decreases t
  {
    t.id == id &&
    match FindNode(nodes, id)
    case None => false
    case Some(n) =>
      match t
      case Leaf(_, group) =>
        n.kind == GroupNode && n.group == group
      case Split(_, orientation, ratio, first, second) =>
        n.kind == SplitNode && n.orientation == orientation && n.ratio == ratio &&
        Represents(nodes, n.first, first) && Represents(nodes, n.second, second)
  }

  ghost function TreeIds(t: Tree): multiset<nat> {
    match t
    case Leaf(id, _) => multiset{id}
    case Split(id, _, _, first, second) => multiset{id} + TreeIds(first) + TreeIds(second)
  }

  ghost function ForestIds(ts: seq<Tree>): multiset<nat> {
    if ts == [] then multiset{} else ForestIds(ts[..|ts| - 1]) + TreeIds(ts[|ts| - 1])
  }

  ghost predicate Spells(nodes: seq<DockNode>, roots: seq<nat>, ts: seq<Tree>) {
    |ts| == |roots| && forall i :: 0 <= i < |ts| ==> Represents(nodes, roots[i], ts[i])
  }

  // Each root spells a tree, and every row of the table lies in exactly one tree, exactly once.
  ghost predicate IsForest(nodes: seq<DockNode>, roots: seq<nat>, ts: seq<Tree>) {
    Spells(nodes, roots, ts) && ForestIds(ts) == multiset(NodeIds(nodes))
  }

  // The groups of a tree in display order.
  ghost function Leaves(t: Tree): seq<nat> {
    match t
    case Leaf(_, group) => [group]
    case Split(_, _, _, first, second) => Leaves(first) + Leaves(second)
  }

  // A table spells at most one forest.
  lemma {:induction false} RepresentsUnique(nodes: seq<DockNode>, id: nat, t: Tree, u: Tree)
    requires Represents(nodes, id, t) && Represents(nodes, id, u)
    ensures t == u
    decreases t
  {
    if t.Split? && u.Split? {
      var n := FindNode(nodes, id).value;
      RepresentsUnique(nodes, n.first, t.first, u.first);
      RepresentsUnique(nodes, n.second, t.second, u.second);
    }
  }

  lemma ForestUnique(nodes: seq<DockNode>, roots: seq<nat>, ts: seq<Tree>, us: seq<Tree>)
    requires IsForest(nodes, roots, ts) && IsForest(nodes, roots, us)
    ensures ts == us
  {
    forall i | 0 <= i < |ts| ensures ts[i] == us[i] {
      RepresentsUnique(nodes, roots[i], ts[i], us[i]);
    }
  }

  // ---- links and in-degrees ----

  function Children(nodes: seq<DockNode>, id: nat): seq<nat> {
    match FindNode(nodes, id)
    case Some(n) => if n.kind == SplitNode then [n.first, n.second] else []
    case None => []
  }

  function Links(n: DockNode): multiset<nat> {
    if n.kind == SplitNode then multiset{n.first, n.second} else multiset{}
  }

  // Every child link written in the table, with multiplicity.
  function ChildLinks(nodes: seq<DockNode>): multiset<nat> {
    if nodes == [] then multiset{} else ChildLinks(nodes[..|nodes| - 1]) + Links(nodes[|nodes| - 1])
  }

  // Each node is a root or a child exactly once.
  predicate InDegreeOne(nodes: seq<DockNode>, roots: seq<nat>) {
    multiset(NodeIds(nodes)) == multiset(roots) + ChildLinks(nodes)
  }

  // The links that leave a list of nodes.
  ghost function LinksFrom(nodes: seq<DockNode>, ids: seq<nat>): multiset<nat> {
    if ids == [] then multiset{}
    else LinksFrom(nodes, ids[..|ids| - 1]) + multiset(Children(nodes, ids[|ids| - 1]))
  }

  lemma {:induction false} LinksFromConcat(nodes: seq<DockNode>, a: seq<nat>, b: seq<nat>)
    ensures LinksFrom(nodes, a + b) == LinksFrom(nodes, a) + LinksFrom(nodes, b)
  {
    if b == [] {
      assert a + b == a;
    } else {
      assert (a + b)[..|a + b| - 1] == a + b[..|b| - 1];
      LinksFromConcat(nodes, a, b[..|b| - 1]);
    }
  }

  // Leaving fewer nodes takes fewer links; the order of the nodes does not matter.
  lemma TakeOne(a: multiset<nat>, b: multiset<nat>, c: multiset<nat>, d: multiset<nat>, x: nat)
    requires a <= b && a == c + multiset{x} && b == d + multiset{x}
    ensures c <= d
  {
    forall e ensures c[e] <= d[e] { assert a[e] <= b[e]; }
  }

  lemma {:induction false} LinksFromMonotone(nodes: seq<DockNode>, a: seq<nat>, b: seq<nat>)
    requires multiset(a) <= multiset(b)
    ensures LinksFrom(nodes, a) <= LinksFrom(nodes, b)
  {
    if a == [] {
    } else {
      var x, init := a[|a| - 1], a[..|a| - 1];
      assert a == init + [x];
      assert x in multiset(b);
      var j :| 0 <= j < |b| && b[j] == x;
      var rest := b[..j] + b[j + 1..];
      assert b == b[..j] + [x] + b[j + 1..];
      assert multiset(b) == multiset(rest) + multiset{x} && multiset(a) == multiset(init) + multiset{x};
      TakeOne(multiset(a), multiset(b), multiset(init), multiset(rest), x);
      LinksFromMonotone(nodes, init, rest);
      LinksFromConcat(nodes, b[..j], b[j + 1..]);
      LinksFromConcat(nodes, b[..j] + [x], b[j + 1..]);
      LinksFromConcat(nodes, b[..j], [x]);
      LinksFromOne(nodes, x);
    }
  }

  lemma LinksOfRow(nodes: seq<DockNode>, k: nat)
    requires NoDuplicates(NodeIds(nodes)) && k < |nodes|
    ensures |NodeIds(nodes)| == |nodes|
    ensures multiset(Children(nodes, NodeIds(nodes)[k])) == Links(nodes[k])
  {
    FindNodeUnique(nodes, nodes[k]);
  }

  lemma {:induction false} ChildLinksByIds(nodes: seq<DockNode>, k: nat)
    requires NoDuplicates(NodeIds(nodes)) && k <= |nodes| == |NodeIds(nodes)|
    ensures LinksFrom(nodes, NodeIds(nodes)[..k]) == ChildLinks(nodes[..k])
  {
    hide FindNode, NodeIds, Children, Links;
    if k == 0 {
    } else {
      ChildLinksByIds(nodes, k - 1);
      LinksOfRow(nodes, k - 1);
      var ids := NodeIds(nodes);
      assert ids[..k][..k - 1] == ids[..k - 1];
      assert nodes[..k][..k - 1] == nodes[..k - 1];
    }
  }

  lemma ChildLinksAll(nodes: seq<DockNode>)
    requires NoDuplicates(NodeIds(nodes))
    ensures LinksFrom(nodes, NodeIds(nodes)) == ChildLinks(nodes)
  {
    ChildLinksByIds(nodes, |nodes|);
    assert NodeIds(nodes)[..|nodes|] == NodeIds(nodes) && nodes[..|nodes|] == nodes;
  }

  // ---- every forest satisfies the in-degree check ----

  ghost function Preorder(t: Tree): (ids: seq<nat>)
    ensures multiset(ids) == TreeIds(t)
  {
    match t
    case Leaf(id, _) => [id]
    case Split(id, _, _, first, second) => [id] + Preorder(first) + Preorder(second)
  }

  ghost function ForestOrder(ts: seq<Tree>): (ids: seq<nat>)
    ensures multiset(ids) == ForestIds(ts)
  {
    if ts == [] then [] else ForestOrder(ts[..|ts| - 1]) + Preorder(ts[|ts| - 1])
  }

  lemma LinksFromOne(nodes: seq<DockNode>, id: nat)
    ensures LinksFrom(nodes, [id]) == multiset(Children(nodes, id))
  {
    assert [id][..0] == [];
  }

  lemma LinksFromPreorder(nodes: seq<DockNode>, t: Tree)
    requires t.Split?
    ensures LinksFrom(nodes, Preorder(t)) ==
            multiset(Children(nodes, t.id)) + LinksFrom(nodes, Preorder(t.first)) + LinksFrom(nodes, Preorder(t.second))
  {
    LinksFromOne(nodes, t.id);
    LinksFromConcat(nodes, [t.id] + Preorder(t.first), Preorder(t.second));
    LinksFromConcat(nodes, [t.id], Preorder(t.first));
  }

  // A tree's nodes are its root and the targets of its links.
  lemma {:induction false} TreeBalance(nodes: seq<DockNode>, id: nat, t: Tree)
    requires Represents(nodes, id, t)
    ensures TreeIds(t) == multiset{id} + LinksFrom(nodes, Preorder(t))
    decreases t
  {
    match t
    case Leaf(_, _) =>
      LinksFromOne(nodes, id);
    case Split(_, _, _, first, second) =>
      var n := FindNode(nodes, id).value;
      TreeBalance(nodes, n.first, first);
      TreeBalance(nodes, n.second, second);
      LinksFromPreorder(nodes, t);
      assert Children(nodes, id) == [n.first, n.second];
      SplitAlgebra(id, n.first, n.second, LinksFrom(nodes, Preorder(first)), LinksFrom(nodes, Preorder(second)));
  }

  lemma SplitAlgebra(id: nat, a: nat, b: nat, la: multiset<nat>, lb: multiset<nat>)
    ensures multiset{id} + (multiset{a} + la) + (multiset{b} + lb) == multiset{id} + (multiset([a, b]) + la + lb)
  {
    assert [a, b] == [a] + [b];
  }

  lemma {:induction false} ForestBalance(nodes: seq<DockNode>, roots: seq<nat>, ts: seq<Tree>)
    requires Spells(nodes, roots, ts)
    ensures ForestIds(ts) == multiset(roots) + LinksFrom(nodes, ForestOrder(ts))
  {
    if ts == [] {
    } else {
      var k := |ts| - 1;
      var before := roots[..k];
      assert roots == before + [roots[k]];
      assert multiset(roots) == multiset(before) + multiset{roots[k]};
      ForestBalance(nodes, before, ts[..k]);
      TreeBalance(nodes, roots[k], ts[k]);
      LinksFromConcat(nodes, ForestOrder(ts[..k]), Preorder(ts[k]));
    }
  }

  lemma ForestInDegree(nodes: seq<DockNode>, roots: seq<nat>, ts: seq<Tree>)
    requires NoDuplicates(NodeIds(nodes)) && IsForest(nodes, roots, ts)
    ensures InDegreeOne(nodes, roots)
  {
    ForestBalance(nodes, roots, ts);
    LinksFromMonotone(nodes, ForestOrder(ts), NodeIds(nodes));
    LinksFromMonotone(nodes, NodeIds(nodes), ForestOrder(ts));
    ChildLinksAll(nodes);
  }

  // ---- the worklist walk ----

  datatype WalkState = WalkState(order: seq<nat>, pending: seq<nat>)

  function WalkStep(nodes: seq<DockNode>, w: WalkState): WalkState
    requires w.pending != []
  {
    var last := |w.pending| - 1;
    WalkState(w.order + [w.pending[last]], w.pending[..last] + Children(nodes, w.pending[last]))
  }

  // The walk after k pops, starting from the roots.
  function Walk(nodes: seq<DockNode>, roots: seq<nat>, k: nat): WalkState {
    if k == 0 then WalkState([], roots)
    else
      var w := Walk(nodes, roots, k - 1);
      if w.pending == [] then w else WalkStep(nodes, w)
  }

  lemma StepBalance(nodes: seq<DockNode>, w: WalkState)
    requires w.pending != []
    ensures var id := w.pending[|w.pending| - 1];
            var v := WalkStep(nodes, w);
            && multiset(v.order) == multiset(w.order) + multiset{id}
            && multiset(v.pending) + multiset{id} == multiset(w.pending) + multiset(Children(nodes, id))
            && LinksFrom(nodes, v.order) == LinksFrom(nodes, w.order) + multiset(Children(nodes, id))
  {
    var last := |w.pending| - 1;
    var id := w.pending[last];
    assert w.pending == w.pending[..last] + [id];
    assert (w.order + [id])[..|w.order|] == w.order;
  }

  lemma BalanceAlgebra(o: multiset<nat>, p: multiset<nat>, r: multiset<nat>, l: multiset<nat>,
                       x: multiset<nat>, c: multiset<nat>, q: multiset<nat>)
    requires o + p == r + l && q + x == p + c
    ensures (o + x) + q == r + (l + c)
  {
    forall e ensures ((o + x) + q)[e] == (r + (l + c))[e] {
      assert (o + p)[e] == (r + l)[e] && (q + x)[e] == (p + c)[e];
    }
  }

  ghost predicate Balanced(nodes: seq<DockNode>, roots: seq<nat>, w: WalkState) {
    multiset(w.order) + multiset(w.pending) == multiset(roots) + LinksFrom(nodes, w.order)
  }

  lemma StepKeepsBalance(nodes: seq<DockNode>, roots: seq<nat>, w: WalkState)
    requires w.pending != [] && Balanced(nodes, roots, w)
    ensures Balanced(nodes, roots, WalkStep(nodes, w))
  {
    var v := WalkStep(nodes, w);
    StepBalance(nodes, w);
    BalanceAlgebra(multiset(w.order), multiset(w.pending), multiset(roots), LinksFrom(nodes, w.order),
                   multiset{w.pending[|w.pending| - 1]}, multiset(Children(nodes, w.pending[|w.pending| - 1])),
                   multiset(v.pending));
  }

  lemma StartBalanced(nodes: seq<DockNode>, roots: seq<nat>)
    ensures Balanced(nodes, roots, WalkState([], roots))
  {}

  lemma {:induction false} WalkBalance(nodes: seq<DockNode>, roots: seq<nat>, k: nat)
    ensures Balanced(nodes, roots, Walk(nodes, roots, k))
  {
    hide WalkStep, Balanced;
    if k == 0 {
      StartBalanced(nodes, roots);
    } else {
      WalkBalance(nodes, roots, k - 1);
      var w := Walk(nodes, roots, k - 1);
      if w.pending != [] {
        StepKeepsBalance(nodes, roots, w);
      }
    }
  }

  lemma LastIsNew(order: seq<nat>, pending: seq<nat>, ids: seq<nat>)
    requires pending != [] && multiset(order) + multiset(pending) <= multiset(ids) && forall x :: multiset(ids)[x] <= 1
    ensures var id := pending[|pending| - 1];
            id in ids && id !in order && multiset(order + [id]) <= multiset(ids)
  {
    var id := pending[|pending| - 1];
    assert id in multiset(pending);
    assert multiset(ids)[id] <= 1;
    assert multiset(order + [id]) == multiset(order) + multiset{id};
  }

  // Once every in-degree is one, no pop meets a node that is unknown or already visited.
  lemma WalkNeverRevisits(nodes: seq<DockNode>, roots: seq<nat>, k: nat)
    requires NoDuplicates(NodeIds(nodes)) && InDegreeOne(nodes, roots)
    requires var w := Walk(nodes, roots, k);
             w.pending != [] && multiset(w.order) <= multiset(NodeIds(nodes))
    ensures var w := Walk(nodes, roots, k);
            var id := w.pending[|w.pending| - 1];
            id in NodeIds(nodes) && id !in w.order &&
            multiset(w.order + [id]) <= multiset(NodeIds(nodes))
  {
    hide Walk, NodeIds, ChildLinks, LinksFrom, NoDuplicates;
    var w := Walk(nodes, roots, k);
    var id := w.pending[|w.pending| - 1];
    WalkBalance(nodes, roots, k);
    LinksFromMonotone(nodes, w.order, NodeIds(nodes));
    ChildLinksAll(nodes);
    NoDuplicatesMultiset(NodeIds(nodes));
    LastIsNew(w.order, w.pending, NodeIds(nodes));
  }

  ghost predicate ChildClosed(nodes: seq<DockNode>, order: seq<nat>, pending: seq<nat>) {
    forall x, c :: x in order && c in Children(nodes, x) ==> c in order || c in pending
  }

  lemma StepClosed(nodes: seq<DockNode>, w: WalkState)
    requires w.pending != [] && ChildClosed(nodes, w.order, w.pending)
    ensures var v := WalkStep(nodes, w);
            && ChildClosed(nodes, v.order, v.pending)
            && forall r :: r in w.order || r in w.pending ==> r in v.order || r in v.pending
  {
    var last := |w.pending| - 1;
    var id := w.pending[last];
    var v := WalkStep(nodes, w);
    assert w.pending == w.pending[..last] + [id];
    forall r | r in w.order || r in w.pending ensures r in v.order || r in v.pending {}
    forall x, c | x in v.order && c in Children(nodes, x) ensures c in v.order || c in v.pending {
      if x != id { assert x in w.order; }
    }
  }

  lemma StartClosed(nodes: seq<DockNode>, roots: seq<nat>)
    ensures var w := Walk(nodes, roots, 0);
            ChildClosed(nodes, w.order, w.pending) && forall r :: r in roots ==> r in w.order || r in w.pending
  {}

  lemma {:induction false} WalkClosed(nodes: seq<DockNode>, roots: seq<nat>, k: nat)
    ensures var w := Walk(nodes, roots, k);
            ChildClosed(nodes, w.order, w.pending) && forall r :: r in roots ==> r in w.order || r in w.pending
  {
    hide ChildClosed, WalkStep;
    if k == 0 {
      StartClosed(nodes, roots);
    } else {
      WalkClosed(nodes, roots, k - 1);
      var w := Walk(nodes, roots, k - 1);
      if w.pending != [] {
        StepClosed(nodes, w);
      }
    }
  }

  lemma {:induction false} ClosedCoversTree(nodes: seq<DockNode>, order: seq<nat>, id: nat, t: Tree)
    requires Represents(nodes, id, t) && ChildClosed(nodes, order, []) && id in order
    ensures forall x :: x in TreeIds(t) ==> x in order
    decreases t
  {
    match t
    case Leaf(_, _) =>
    case Split(_, _, _, first, second) =>
      var n := FindNode(nodes, id).value;
      assert n.first in Children(nodes, id) && n.second in Children(nodes, id);
      ClosedCoversTree(nodes, order, n.first, first);
      ClosedCoversTree(nodes, order, n.second, second);
  }

  lemma {:induction false} ForestIdsMember(ts: seq<Tree>, x: nat) returns (i: nat)
    requires x in ForestIds(ts)
    ensures i < |ts| && x in TreeIds(ts[i])
  {
    if x in TreeIds(ts[|ts| - 1]) {
      i := |ts| - 1;
    } else {
      i := ForestIdsMember(ts[..|ts| - 1], x);
    }
  }

  // A finished walk over a forest has visited every row.
  lemma FinishedWalkCovers(nodes: seq<DockNode>, roots: seq<nat>, ts: seq<Tree>, k: nat)
    requires IsForest(nodes, roots, ts) && Walk(nodes, roots, k).pending == []
    ensures forall x :: x in NodeIds(nodes) ==> x in Walk(nodes, roots, k).order
  {
    var order := Walk(nodes, roots, k).order;
    WalkClosed(nodes, roots, k);
    forall x | x in NodeIds(nodes) ensures x in order {
      assert x in multiset(NodeIds(nodes));
      var i := ForestIdsMember(ts, x);
      assert roots[i] in roots;
      ClosedCoversTree(nodes, order, roots[i], ts[i]);
    }
  }

  // Undo one step of the walk on the trees of the pending nodes.
  lemma RebuildLeaf(nodes: seq<DockNode>, w: WalkState, us: seq<Tree>, group: nat)
    requires w.pending != []
    requires var id := w.pending[|w.pending| - 1];
             Represents(nodes, id, Leaf(id, group)) && Spells(nodes, WalkStep(nodes, w).pending, us)
    ensures var id := w.pending[|w.pending| - 1];
            Spells(nodes, w.pending, us + [Leaf(id, group)]) &&
            ForestIds(us + [Leaf(id, group)]) == multiset{id} + ForestIds(us)
  {
    var last := |w.pending| - 1;
    assert WalkStep(nodes, w).pending == w.pending[..last];
    assert (us + [Leaf(w.pending[last], group)])[..|us|] == us;
  }

  lemma ForestIdsJoin(us: seq<Tree>, t: Tree)
    requires |us| >= 2 && t.Split? && t.first == us[|us| - 2] && t.second == us[|us| - 1]
    ensures ForestIds(us[..|us| - 2] + [t]) == multiset{t.id} + ForestIds(us)
  {
    var init := us[..|us| - 2];
    assert (init + [t])[..|init|] == init;
    assert us[..|us| - 1][..|us| - 2] == init;
    assert ForestIds(us) == ForestIds(us[..|us| - 1]) + TreeIds(t.second);
    assert ForestIds(us[..|us| - 1]) == ForestIds(init) + TreeIds(t.first);
  }

  lemma RebuildSplit(nodes: seq<DockNode>, w: WalkState, us: seq<Tree>, n: DockNode)
    requires w.pending != [] && FindNode(nodes, w.pending[|w.pending| - 1]) == Some(n) && n.kind == SplitNode
    requires Spells(nodes, WalkStep(nodes, w).pending, us)
    ensures var last := |w.pending| - 1;
            |us| == last + 2 &&
            var t := Split(n.id, n.orientation, n.ratio, us[last], us[last + 1]);
            Spells(nodes, w.pending, us[..last] + [t])
  {
    var last := |w.pending| - 1;
    var p := WalkStep(nodes, w).pending;
    assert p == w.pending[..last] + [n.first, n.second];
    assert Represents(nodes, p[last], us[last]) && Represents(nodes, p[last + 1], us[last + 1]);
    var t := Split(n.id, n.orientation, n.ratio, us[last], us[last + 1]);
    assert Represents(nodes, w.pending[last], t);
    var ts := us[..last] + [t];
    forall i | 0 <= i < |ts| ensures Represents(nodes, w.pending[i], ts[i]) {
      if i < last { assert p[i] == w.pending[i]; }
    }
  }

  // Replaying a finished walk backwards assembles the trees of whatever was pending.
  lemma {:induction false} RebuildForest(nodes: seq<DockNode>, roots: seq<nat>, k: nat, end: nat) returns (ts: seq<Tree>)
    requires k <= end
    requires Walk(nodes, roots, end).pending == []
    requires forall x :: x in Walk(nodes, roots, end).order ==> x in NodeIds(nodes)
    ensures var w := Walk(nodes, roots, k);
            && w.order <= Walk(nodes, roots, end).order
            && Spells(nodes, w.pending, ts)
            && multiset(w.order) + ForestIds(ts) == multiset(Walk(nodes, roots, end).order)
    decreases end - k
  {
    var w := Walk(nodes, roots, k);
    if k == end {
      ts := [];
    } else {
      var us := RebuildForest(nodes, roots, k + 1, end);
      if w.pending == [] {
        ts := us;
      } else {
        ts := RebuildStep(nodes, w, us, Walk(nodes, roots, end).order);
      }
    }
  }

  lemma VisitAlgebra(order: seq<nat>, id: nat, below: multiset<nat>)
    ensures multiset(order + [id]) + below == multiset(order) + (multiset{id} + below)
  {}

  lemma RebuildOne(nodes: seq<DockNode>, w: WalkState, us: seq<Tree>) returns (ts: seq<Tree>)
    requires w.pending != [] && w.pending[|w.pending| - 1] in NodeIds(nodes)
    requires Spells(nodes, WalkStep(nodes, w).pending, us)
    ensures Spells(nodes, w.pending, ts)
    ensures ForestIds(ts) == multiset{w.pending[|w.pending| - 1]} + ForestIds(us)
  {
    hide Spells, ForestIds;
    var last := |w.pending| - 1;
    var n := FindNode(nodes, w.pending[last]).value;
    if n.kind == SplitNode {
      RebuildSplit(nodes, w, us, n);
      var t := Split(n.id, n.orientation, n.ratio, us[last], us[last + 1]);
      ForestIdsJoin(us, t);
      ts := us[..last] + [t];
    } else {
      RebuildLeaf(nodes, w, us, n.group);
      ts := us + [Leaf(n.id, n.group)];
    }
  }

  lemma RebuildStep(nodes: seq<DockNode>, w: WalkState, us: seq<Tree>, order: seq<nat>) returns (ts: seq<Tree>)
    requires w.pending != [] && (forall x :: x in order ==> x in NodeIds(nodes))
    requires var v := WalkStep(nodes, w);
             v.order <= order && Spells(nodes, v.pending, us) && multiset(v.order) + ForestIds(us) == multiset(order)
    ensures w.order <= order && Spells(nodes, w.pending, ts) && multiset(w.order) + ForestIds(ts) == multiset(order)
  {
    var id := w.pending[|w.pending| - 1];
    assert WalkStep(nodes, w).order == w.order + [id];
    hide WalkStep, Spells, ForestIds;
    assert (w.order + [id])[|w.order|] == order[|w.order|];
    ts := RebuildOne(nodes, w, us);
    VisitAlgebra(w.order, id, ForestIds(us));
  }
}
