// Moving documents between any number of workspaces with any number of plans in flight.
module DocTransfer {
  import opened Basics
  import opened DocTypes
  import opened DocLaws
  import opened DocClose
  import opened DocWorkspace

  // ---- rolling back ----

  lemma AddThenClose(w: Workspace, d: WorkspaceDocument, index: Option<nat>)
    requires Consistent(w) && Add(w, d, index).status == Success
    ensures var v := Add(w, d, index).workspace;
            Close(v, d.id, false).status == Success &&
            Close(v, d.id, false).workspace == w.(revision := w.revision + 2)
  {
    hide Consistent, Add, Close, FindIndex, Ids, ValidDocument;
    var at := if index.Some? then index.value else |w.documents|;
    AddShape(w, d, index, at);
    AddedAt(w, d, index, at);
    ActiveIsHeld(w);
    RemoveInserted(w.documents, at, d);
    CloseShape(Add(w, d, index).workspace, d.id, at);
  }

  lemma AddShape(w: Workspace, d: WorkspaceDocument, index: Option<nat>, at: nat)
    requires Add(w, d, index).status == Success && at == if index.Some? then index.value else |w.documents|
    ensures at <= |w.documents| && d.id !in Ids(w.documents)
    ensures Add(w, d, index).workspace ==
            w.(documents := InsertDocument(w.documents, at, d), active := if w.active.None? then Some(d.id) else w.active,
               revision := w.revision + 1)
  {}

  lemma CloseShape(v: Workspace, id: nat, at: nat)
    requires FindIndex(v, id) == Some(at)
    ensures at < |v.documents| && Close(v, id, false).status == Success
    ensures var w := Close(v, id, false).workspace;
            && w == v.(documents := RemoveDocument(v.documents, at), active := w.active, revision := v.revision + 1)
            && (v.active != Some(id) ==> w.active == v.active)
            && (v.active == Some(id) && w.documents == [] ==> w.active == None)
  {}

  lemma RemoveInserted(documents: seq<WorkspaceDocument>, at: nat, d: WorkspaceDocument)
    requires at <= |documents|
    ensures RemoveDocument(InsertDocument(documents, at, d), at) == documents
  {}

  lemma AddedAt(w: Workspace, d: WorkspaceDocument, index: Option<nat>, at: nat)
    requires Consistent(w) && Add(w, d, index).status == Success
    requires at == if index.Some? then index.value else |w.documents|
    ensures Add(w, d, index).workspace.documents[at] == d && FindIndex(Add(w, d, index).workspace, d.id) == Some(at)
  {
    var v := Add(w, d, index).workspace;
    AddKeeps(w, d, index);
    assert v.documents[at] == d;
    DistinctIndex(v.documents, at);
  }

  lemma AddedIsHeld(w: Workspace, d: WorkspaceDocument, index: Option<nat>)
    requires Consistent(w) && Add(w, d, index).status == Success
    ensures Holds(Add(w, d, index).workspace, d.id) && Holds(ClearRecentlyClosed(Add(w, d, index).workspace), d.id)
  {
    hide Consistent, Add;
    AddedAt(w, d, index, if index.Some? then index.value else |w.documents|);
  }

  lemma ActiveIsHeld(w: Workspace)
    requires Consistent(w)
    ensures w.active.None? <==> w.documents == []
    ensures w.active.Some? ==> w.active.value in Ids(w.documents)
  {}

  // Between acceptance and rollback the destination may be used in any way. A rollback that succeeds gives back the
  // destination's list, order and active document, and its history unless that was cleared in between.
  lemma RollbackRestores(w: Workspace, plan: DocumentTransferPlan, ops: seq<WorkspaceOp>)
    requires Consistent(w) && AcceptTransfer(w, plan).0.status == Success
    ensures var (accepted, next) := AcceptTransfer(w, plan);
            var later := Run(accepted.workspace, ops);
            var rolled := RollbackTransfer(later, next);
            && (rolled.status == Success <==> later.revision == accepted.workspace.revision)
            && (rolled.status == Success ==>
                  rolled.workspace == w.(revision := w.revision + 2, recent := if ClearRecentOp in ops then [] else w.recent))
  {
    hide Add, Run, Close, Consistent, ValidDocument, ClearRecentlyClosed;
    var (accepted, next) := AcceptTransfer(w, plan);
    var v := accepted.workspace;
    AddKeeps(w, plan.document, plan.destinationIndex);
    EqualRevisionEqualState(v, ops);
    AddThenClose(w, plan.document, plan.destinationIndex);
    AddedIsHeld(w, plan.document, plan.destinationIndex);
    RunKeepsId(v, ops);
    AddKeepsRecent(w, plan.document, plan.destinationIndex);
    CloseIgnoresRecent(v, plan.document.id);
  }

  lemma AddKeepsRecent(w: Workspace, d: WorkspaceDocument, index: Option<nat>)
    ensures Add(w, d, index).workspace.recent == w.recent && Add(w, d, index).workspace.id == w.id
  {}

  lemma CloseIgnoresRecent(w: Workspace, id: nat)
    ensures Close(ClearRecentlyClosed(w), id, false) ==
            Reply(Close(w, id, false).status, Close(w, id, false).workspace.(recent := []))
  {}

  lemma {:induction false} RunKeepsId(w: Workspace, ops: seq<WorkspaceOp>)
    ensures Run(w, ops).id == w.id
  {
    hide Call;
    if ops == [] {
    } else {
      RunKeepsId(w, ops[..|ops| - 1]);
      CallRevision(Run(w, ops[..|ops| - 1]), ops[|ops| - 1]);
    }
  }

  // ---- the protocol ----

  datatype TrackedPlan = TrackedPlan(plan: DocumentTransferPlan, resolved: bool)
  datatype Network = Network(spaces: map<nat, Workspace>, plans: seq<TrackedPlan>)

  datatype NetworkStep =
    | Prepare(at: nat, id: nat, destination: nat, index: Option<nat>)
    | Accept(at: nat, k: nat)
    | Commit(at: nat, k: nat)
    | Rollback(at: nat, k: nat)
    | Other(at: nat, op: WorkspaceOp)

  predicate Within(net: Network, step: NetworkStep) {
    step.at in net.spaces && (step.Accept? || step.Commit? || step.Rollback? ==> step.k < |net.plans|)
  }

  // Outside the protocol nobody adds or closes d. Plans may be accepted, committed and rolled back at any time and any
  // number of times.
  predicate Permitted(net: Network, step: NetworkStep, d: nat) {
    && Within(net, step)
    && (step.Other? ==>
          match step.op
          case AddOp(document, _) => document.id != d
          case CloseOp(id, _) => id != d
          case CloseManyOp(ids) => d !in ids
          case ReopenOp(index) =>
            index < |net.spaces[step.at].recent| ==> net.spaces[step.at].recent[index].id != d
          case AcceptOp(_) => false
          case CommitOp(_) => false
          case RollbackOp(_) => false
          case _ => true)
  }

  function Next(net: Network, step: NetworkStep): Network
    requires Within(net, step)
  {
    match step
    case Prepare(at, id, destination, index) =>
      var plan := PrepareTransfer(net.spaces[at], id, destination, index);
      if plan.None? then net else net.(plans := net.plans + [TrackedPlan(plan.value, false)])
    case Accept(at, k) =>
      var (reply, plan) := AcceptTransfer(net.spaces[at], net.plans[k].plan);
      Network(net.spaces[at := reply.workspace], net.plans[k := net.plans[k].(plan := plan)])
    case Commit(at, k) => AfterResolve(net, at, k, CommitTransfer(net.spaces[at], net.plans[k].plan))
    case Rollback(at, k) => AfterResolve(net, at, k, RollbackTransfer(net.spaces[at], net.plans[k].plan))
    case Other(at, op) => net.(spaces := net.spaces[at := Call(net.spaces[at], op).workspace])
  }

  function AfterResolve(net: Network, at: nat, k: nat, reply: Reply): Network
    requires at in net.spaces && k < |net.plans|
  {
    var p := net.plans[k];
    Network(net.spaces[at := reply.workspace], net.plans[k := p.(resolved := p.resolved || reply.status == Success)])
  }

  ghost predicate Behaves(net: Network, steps: seq<NetworkStep>, d: nat)
    decreases |steps|
  {
    steps == [] || (Permitted(net, steps[0], d) && Behaves(Next(net, steps[0]), steps[1..], d))
  }

  ghost function After(net: Network, steps: seq<NetworkStep>, d: nat): Network
    requires Behaves(net, steps, d)
    decreases |steps|
  {
    if steps == [] then net else After(Next(net, steps[0]), steps[1..], d)
  }

  // What the calls do not prevent: a plan for d that was settled before is settled once more. It happens exactly when
  // the plan was accepted, the workspace is the one it names, nothing changed there since, and it still holds d.
  predicate ResolvesAgain(net: Network, step: NetworkStep, d: nat)
    requires Within(net, step)
  {
    && (step.Commit? || step.Rollback?)
    && var (w, p) := (net.spaces[step.at], net.plans[step.k]);
       && p.resolved && p.plan.document.id == d && ValidPlan(p.plan) && p.plan.accepted && Holds(w, d)
       && (step.Commit? ==> p.plan.source == w.id && p.plan.sourceRevision == w.revision)
       && (step.Rollback? ==> p.plan.destination == w.id && p.plan.destinationRevision == w.revision)
  }

  ghost function Losses(net: Network, steps: seq<NetworkStep>, d: nat): nat
    requires Behaves(net, steps, d)
    decreases |steps|
  {
    if steps == [] then 0
    else (if ResolvesAgain(net, steps[0], d) then 1 else 0) + Losses(Next(net, steps[0]), steps[1..], d)
  }

  // Workspaces that hold d, and plans for d that were accepted and not yet committed or rolled back.
  function Holders(net: Network, d: nat): set<nat> {
    set w | w in net.spaces && Holds(net.spaces[w], d)
  }

  predicate InFlight(p: TrackedPlan, d: nat) {
    p.plan.accepted && !p.resolved && p.plan.document.id == d
  }

  function Flights(net: Network, d: nat): set<nat> {
    set k | 0 <= k < |net.plans| && InFlight(net.plans[k], d)
  }

  function Balance(net: Network, d: nat): int { |Holders(net, d)| - |Flights(net, d)| }

  ghost predicate Sound(net: Network) {
    && (forall w :: w in net.spaces ==> Consistent(net.spaces[w]))
    && (forall k :: 0 <= k < |net.plans| ==> net.plans[k].resolved ==> net.plans[k].plan.accepted)
  }

  lemma SpaceIsConsistent(net: Network, at: nat)
    requires Sound(net) && at in net.spaces
    ensures Consistent(net.spaces[at])
  {}

  lemma HoldsAfterAdd(w: Workspace, document: WorkspaceDocument, index: Option<nat>, d: nat)
    requires Consistent(w) && Add(w, document, index).status == Success
    ensures Holds(Add(w, document, index).workspace, d) <==> Holds(w, d) || d == document.id
    ensures !Holds(w, document.id)
  {
    var v := Add(w, document, index).workspace;
    var at := if index.Some? then index.value else |w.documents|;
    assert forall x :: x in v.documents <==> x in w.documents || x == document;
    SameIds(w.documents, v.documents, document);
  }

  lemma SameIds(a: seq<WorkspaceDocument>, b: seq<WorkspaceDocument>, extra: WorkspaceDocument)
    requires forall x :: x in b <==> x in a || x == extra
    ensures forall id :: id in Ids(b) <==> id in Ids(a) || id == extra.id
  {
    forall id ensures id in Ids(b) <==> id in Ids(a) || id == extra.id {
      if id in Ids(b) {
        IdInIds(b, id);
        var x :| x in b && x.id == id;
        if x in a { IdsAt(a, x); }
      }
      if id in Ids(a) {
        IdInIds(a, id);
        var x :| x in a && x.id == id;
        IdsAt(b, x);
      }
      if id == extra.id { IdsAt(b, extra); }
    }
  }

  lemma HoldsMeansOpen(w: Workspace, d: nat)
    requires Consistent(w)
    ensures Holds(w, d) <==> exists x :: x in w.documents && x.id == d
  {
    if Holds(w, d) { IdInIds(w.documents, d); }
    if x :| x in w.documents && x.id == d { IdsAt(w.documents, x); }
  }

  lemma HoldsAfterClose(w: Workspace, id: nat, remember: bool, d: nat)
    requires Consistent(w) && Close(w, id, remember).status == Success
    ensures Holds(Close(w, id, remember).workspace, d) <==> Holds(w, d) && d != id
  {
    var i := FindIndex(w, id).value;
    RemoveKeepsDistinct(w.documents, i);
    CloseKeeps(w, id, remember);
    HoldsMeansOpen(w, d);
    HoldsMeansOpen(Close(w, id, remember).workspace, d);
    hide Holds, FindIndex, DistinctDocuments, Ids, Remember, Consistent;
  }

  lemma HoldsAfterEdit(w: Workspace, i: nat, x: WorkspaceDocument, d: nat)
    requires i < |w.documents| && x.id == w.documents[i].id
    ensures Holds(Edit(w, i, x), d) <==> Holds(w, d)
  {
    assert Ids(Edit(w, i, x).documents) == Ids(w.documents);
  }

  lemma HoldsAfterMove(w: Workspace, id: nat, to: nat, d: nat)
    requires Consistent(w)
    ensures Holds(Move(w, id, to).workspace, d) <==> Holds(w, d)
  {
    var v := Move(w, id, to).workspace;
    MoveKeeps(w, id, to);
    HoldsMeansOpen(w, d);
    HoldsMeansOpen(v, d);
    if v != w { MoveSameDocuments(w, id, to); }
    hide Move, Consistent, Holds;
  }

  lemma InsertMembers(documents: seq<WorkspaceDocument>, i: nat, d: WorkspaceDocument)
    requires i <= |documents|
    ensures multiset(InsertDocument(documents, i, d)) == multiset(documents) + multiset{d}
  {
    assert documents == documents[..i] + documents[i..];
  }

  lemma RemoveMembers(documents: seq<WorkspaceDocument>, i: nat)
    requires i < |documents|
    ensures multiset(RemoveDocument(documents, i)) + multiset{documents[i]} == multiset(documents)
  {
    assert documents == documents[..i] + [documents[i]] + documents[i + 1..];
  }

  lemma MoveSameDocuments(w: Workspace, id: nat, to: nat)
    requires Consistent(w) && Move(w, id, to).workspace != w
    ensures forall x :: x in Move(w, id, to).workspace.documents <==> x in w.documents
  {
    var i := FindIndex(w, id).value;
    var rest := RemoveDocument(w.documents, i);
    var moved := Move(w, id, to).workspace.documents;
    RemoveMembers(w.documents, i);
    InsertMembers(rest, to, w.documents[i]);
    hide RemoveDocument, InsertDocument, Consistent, Ids;
    assert multiset(moved) == multiset(w.documents);
    forall x ensures x in moved <==> x in w.documents {
      assert x in moved <==> x in multiset(moved);
    }
  }

  lemma HoldsAfterCloseMany(w: Workspace, ids: seq<nat>, d: nat)
    requires Consistent(w) && d !in ids
    ensures Holds(CloseMany(w, ids).workspace, d) <==> Holds(w, d)
  {
    var v := CloseMany(w, ids).workspace;
    CloseManyKeeps(w, ids);
    HoldsMeansOpen(w, d);
    HoldsMeansOpen(v, d);
    hide Holds, Consistent, NextActive, CheckClosing;
  }

  // Outside the protocol, a permitted call neither brings in nor takes out d.
  lemma OtherKeepsHolding(net: Network, at: nat, op: WorkspaceOp, d: nat)
    requires Sound(net) && Permitted(net, Other(at, op), d)
    ensures Holds(Call(net.spaces[at], op).workspace, d) <==> Holds(net.spaces[at], d)
  {
    hide Sound, Add, Close, CloseMany, Move, Edit, ReopenRecentlyClosed, RestoreRecentlyClosed, Holds, Consistent;
    var w := net.spaces[at];
    SpaceIsConsistent(net, at);
    match op
    case AddOp(x, index) =>
      if Add(w, x, index).status == Success { HoldsAfterAdd(w, x, index, d); } else { AddFailureKeeps(w, x, index); }
    case CloseOp(id, remember) =>
      CallRevision(w, op);
      if Close(w, id, remember).status == Success { HoldsAfterClose(w, id, remember, d); }
    case CloseManyOp(ids) => HoldsAfterCloseMany(w, ids, d);
    case MoveOp(id, to) => HoldsAfterMove(w, id, to, d);
    case ActivateOp(id) => SameDocumentsHold(w, Activate(w, id).workspace, d);
    case SetDirtyOp(id, dirty) =>
      if i :| FindIndex(w, id) == Some(i) { HoldsAfterEdit(w, i, w.documents[i].(dirty := dirty), d); }
    case SetUndoStateOp(id, canUndo, canRedo) =>
      if i :| FindIndex(w, id) == Some(i) { HoldsAfterEdit(w, i, w.documents[i].(canUndo := canUndo, canRedo := canRedo), d); }
    case SetViewStateOp(id, view) =>
      if i :| FindIndex(w, id) == Some(i) { HoldsAfterEdit(w, i, w.documents[i].(view := view), d); }
    case RenameOp(id, title, path) =>
      if i :| FindIndex(w, id) == Some(i) { HoldsAfterEdit(w, i, w.documents[i].(title := title, path := path), d); }
    case ReopenOp(index) => HoldsAfterReopen(w, index, d);
    case RestoreRecentOp(entries) => RestoreSame(w, entries); SameDocumentsHold(w, RestoreRecentlyClosed(w, entries).workspace, d);
    case ClearRecentOp => SameDocumentsHold(w, ClearRecentlyClosed(w), d);
  }

  lemma SameDocumentsHold(w: Workspace, v: Workspace, d: nat)
    requires v.documents == w.documents
    ensures Holds(v, d) <==> Holds(w, d)
  {}

  lemma RestoreSame(w: Workspace, entries: seq<WorkspaceDocument>)
    ensures RestoreRecentlyClosed(w, entries).workspace.documents == w.documents
  {}

  lemma HoldsAfterReopen(w: Workspace, index: nat, d: nat)
    requires Consistent(w) && (index < |w.recent| ==> w.recent[index].id != d)
    ensures Holds(ReopenRecentlyClosed(w, index).workspace, d) <==> Holds(w, d)
  {
    hide Consistent, Holds, Add;
    if index < |w.recent| {
      var x := w.recent[index].(dirty := false);
      if Add(w, x, None).status == Success {
        HoldsAfterAdd(w, x, None, d);
        SameDocumentsHold(Add(w, x, None).workspace, ReopenRecentlyClosed(w, index).workspace, d);
      } else {
        AddFailureKeeps(w, x, None);
      }
    }
  }

  // ---- counting ----

  lemma OneMore(s: set<nat>, x: nat)
    requires x !in s
    ensures |s + {x}| == |s| + 1
  {}

  lemma HoldersAfterUpdate(net: Network, at: nat, v: Workspace, plans: seq<TrackedPlan>, d: nat)
    requires at in net.spaces
    ensures var after := Network(net.spaces[at := v], plans);
            |Holders(after, d)| == |Holders(net, d)| + (if Holds(v, d) then 1 else 0) - (if Holds(net.spaces[at], d) then 1 else 0)
  {
    var after := Network(net.spaces[at := v], plans);
    var rest := Holders(net, d) - {at};
    hide Holds;
    assert Holders(net, d) == if Holds(net.spaces[at], d) then rest + {at} else rest;
    assert Holders(after, d) == if Holds(v, d) then rest + {at} else rest;
    OneMore(rest, at);
  }

  lemma FlightsAfterUpdate(net: Network, k: nat, p: TrackedPlan, spaces: map<nat, Workspace>, d: nat)
    requires k < |net.plans|
    ensures var after := Network(spaces, net.plans[k := p]);
            |Flights(after, d)| == |Flights(net, d)| + (if InFlight(p, d) then 1 else 0) - (if InFlight(net.plans[k], d) then 1 else 0)
  {
    var after := Network(spaces, net.plans[k := p]);
    var rest := Flights(net, d) - {k};
    hide InFlight;
    assert Flights(net, d) == if InFlight(net.plans[k], d) then rest + {k} else rest;
    assert Flights(after, d) == if InFlight(p, d) then rest + {k} else rest;
    OneMore(rest, k);
  }

  lemma FlightsAfterPrepare(net: Network, p: TrackedPlan, d: nat)
    requires !p.plan.accepted
    ensures Flights(net.(plans := net.plans + [p]), d) == Flights(net, d)
  {}

  lemma NextSound(net: Network, step: NetworkStep, d: nat)
    requires Sound(net) && Permitted(net, step, d)
    ensures Sound(Next(net, step))
  {
    hide Consistent, Add, Close, Call;
    match step
    case Prepare(at, id, destination, index) =>
    case Accept(at, k) => AddKeeps(net.spaces[at], net.plans[k].plan.document, net.plans[k].plan.destinationIndex);
    case Commit(at, k) => CloseKeeps(net.spaces[at], net.plans[k].plan.document.id, false);
    case Rollback(at, k) => CloseKeeps(net.spaces[at], net.plans[k].plan.document.id, false);
    case Other(at, op) => CallKeepsConsistent(net.spaces[at], op);
  }

  lemma AcceptBalances(net: Network, at: nat, k: nat, d: nat)
    requires Sound(net) && Permitted(net, Accept(at, k), d)
    ensures var after := Next(net, Accept(at, k));
            Balance(after, d) == Balance(net, d)
  {
    var w, p := net.spaces[at], net.plans[k];
    var (reply, plan) := AcceptTransfer(w, p.plan);
    var spaces, plans := net.spaces[at := reply.workspace], net.plans[k := p.(plan := plan)];
    HoldersAfterUpdate(net, at, reply.workspace, plans, d);
    FlightsAfterUpdate(net, k, p.(plan := plan), spaces, d);
    hide Add, Holds, Holders, Flights, Consistent;
    if reply.status == Success {
      HoldsAfterAdd(w, p.plan.document, p.plan.destinationIndex, d);
    } else {
      AddFailureKeeps(w, p.plan.document, p.plan.destinationIndex);
    }
  }

  // One attempt to settle a plan, that either closes its document or is refused.
  lemma ResolveOne(net: Network, at: nat, k: nat, reply: Reply, d: nat)
    requires Sound(net) && at in net.spaces && k < |net.plans|
    requires reply == (if reply.status == Success then Close(net.spaces[at], net.plans[k].plan.document.id, false)
                       else Reply(reply.status, net.spaces[at]))
    requires reply.status == Success ==> net.plans[k].plan.accepted
    ensures var again := reply.status == Success && net.plans[k].resolved && net.plans[k].plan.document.id == d;
            Balance(AfterResolve(net, at, k, reply), d) == Balance(net, d) - if again then 1 else 0
  {
    var p := net.plans[k];
    var q := p.(resolved := p.resolved || reply.status == Success);
    HoldersAfterUpdate(net, at, reply.workspace, net.plans[k := q], d);
    FlightsAfterUpdate(net, k, q, net.spaces[at := reply.workspace], d);
    hide Close, Holders, Flights, Consistent, Holds;
    if reply.status == Success {
      CloseNeedsHolder(net.spaces[at], p.plan.document.id);
      HoldsAfterClose(net.spaces[at], p.plan.document.id, false, d);
    }
  }

  lemma CloseNeedsHolder(w: Workspace, id: nat)
    ensures Close(w, id, false).status == Success <==> Holds(w, id)
    ensures Close(w, id, false).status != Success ==> Close(w, id, false).workspace == w
  {}

  // Settling a plan, whether or not it was settled before: the balance of its document is kept exactly when it is not
  // settled again.
  lemma ResolveBalances(net: Network, step: NetworkStep, d: nat)
    requires Sound(net) && Within(net, step) && (step.Commit? || step.Rollback?)
    ensures Balance(Next(net, step), d) == Balance(net, d) - if ResolvesAgain(net, step, d) then 1 else 0
  {
    hide Sound, Close, Balance, Holds, ValidPlan, AfterResolve;
    var w, plan := net.spaces[step.at], net.plans[step.k].plan;
    CloseNeedsHolder(w, plan.document.id);
    if step.Commit? {
      ResolveOne(net, step.at, step.k, CommitTransfer(w, plan), d);
    } else {
      ResolveOne(net, step.at, step.k, RollbackTransfer(w, plan), d);
    }
  }

  lemma StepBalances(net: Network, step: NetworkStep, d: nat)
    requires Sound(net) && Permitted(net, step, d)
    ensures Balance(Next(net, step), d) == Balance(net, d) - if ResolvesAgain(net, step, d) then 1 else 0
  {
    match step
    case Prepare(at, id, destination, index) =>
      var plan := PrepareTransfer(net.spaces[at], id, destination, index);
      if plan.Some? { FlightsAfterPrepare(net, TrackedPlan(plan.value, false), d); }
    case Accept(at, k) => AcceptBalances(net, at, k, d);
    case Commit(at, k) => ResolveBalances(net, step, d);
    case Rollback(at, k) => ResolveBalances(net, step, d);
    case Other(at, op) =>
      OtherKeepsHolding(net, at, op, d);
      HoldersAfterUpdate(net, at, Call(net.spaces[at], op).workspace, net.plans, d);
  }

  // Over every interleaving: the number of workspaces holding d exceeds the number of its plans in flight by a constant,
  // less one for each time a plan for d is settled again.
  lemma {:induction false} RunBalances(net: Network, steps: seq<NetworkStep>, d: nat)
    requires Sound(net) && Behaves(net, steps, d)
    ensures Sound(After(net, steps, d))
    ensures Balance(After(net, steps, d), d) == Balance(net, d) - Losses(net, steps, d)
    decreases |steps|
  {
    hide Sound, Permitted, Balance, Next, ResolvesAgain;
    if steps == [] {
    } else {
      assert Within(net, steps[0]) by { PermittedIsWithin(net, steps[0], d); }
      NextSound(net, steps[0], d);
      StepBalances(net, steps[0], d);
      RunBalances(Next(net, steps[0]), steps[1..], d);
    }
  }

  lemma PermittedIsWithin(net: Network, step: NetworkStep, d: nat)
    requires Permitted(net, step, d)
    ensures Within(net, step)
  {}

  // A document that starts in one workspace is held by one workspace more than it has plans in flight, so it is neither
  // lost nor duplicated once its plans are settled, exactly when no plan for it is settled again.
  lemma TransferConserves(net: Network, steps: seq<NetworkStep>, d: nat)
    requires Sound(net) && Behaves(net, steps, d) && net.plans == [] && |Holders(net, d)| == 1
    ensures var after := After(net, steps, d);
            && (|Holders(after, d)| == 1 + |Flights(after, d)| <==> Losses(net, steps, d) == 0)
            && |Holders(after, d)| == 1 + |Flights(after, d)| - Losses(net, steps, d)
            && (Losses(net, steps, d) == 0 ==>
                  && Holders(after, d) != {}
                  && (Flights(after, d) == {} ==> exists w :: Holders(after, d) == {w}))
  {
    assert Flights(net, d) == {};
    RunBalances(net, steps, d);
    hide Holders, Flights, After, Losses;
    var after := After(net, steps, d);
    if Losses(net, steps, d) == 0 && Flights(after, d) == {} { Singleton(Holders(after, d)); }
  }

  lemma Singleton(s: set<nat>)
    requires |s| == 1
    ensures exists x :: s == {x}
  {
    var x :| x in s;
    assert |s - {x}| == 0;
    assert s == {x};
  }

  // The revision guards against repeating the same call: whatever happens to the workspace afterwards, a plan that was
  // committed is never committed again, and one that was rolled back is never rolled back again.
  lemma NeverTheSameTwice(w: Workspace, plan: DocumentTransferPlan, ops: seq<WorkspaceOp>)
    ensures var committed := CommitTransfer(w, plan);
            committed.status == Success ==> CommitTransfer(Run(committed.workspace, ops), plan).status != Success
    ensures var rolled := RollbackTransfer(w, plan);
            rolled.status == Success ==> RollbackTransfer(Run(rolled.workspace, ops), plan).status != Success
  {
    hide Run, Holds, ValidPlan, Close;
    CloseCounts(w, plan.document.id);
    EqualRevisionEqualState(CommitTransfer(w, plan).workspace, ops);
    EqualRevisionEqualState(RollbackTransfer(w, plan).workspace, ops);
  }

  lemma CloseCounts(w: Workspace, id: nat)
    ensures Close(w, id, false).status == Success ==> Close(w, id, false).workspace.revision > w.revision
  {}

  // That leaves the two different calls: nothing stops a plan from being committed and then rolled back, and that loses
  // the document.
  lemma CommitThenRollbackLoses(d: WorkspaceDocument)
    requires ValidDocument(d)
    ensures var a := Add(Workspace(1, 0, [], [], None, 0), d, None).workspace;
            var b := Workspace(2, 0, [], [], None, 0);
            var plan := PrepareTransfer(a, d.id, 2, None);
            && Holds(a, d.id) && plan.Some?
            && var (accepted, next) := AcceptTransfer(b, plan.value);
               var committed := CommitTransfer(a, next);
               var rolled := RollbackTransfer(accepted.workspace, next);
               && accepted.status == Success && committed.status == Success && rolled.status == Success
               && !Holds(committed.workspace, d.id) && !Holds(rolled.workspace, d.id)
  {
    var e := Workspace(1, 0, [], [], None, 0);
    var a := Add(e, d, None).workspace;
    var b := Workspace(2, 0, [], [], None, 0);
    assert Ids(e.documents) == [] && Ids(b.documents) == [];
    assert a.documents == [d];
    DistinctIndex(a.documents, 0);
    AddKeeps(e, d, None);
    var plan := PrepareTransfer(a, d.id, 2, None).value;
    var (accepted, next) := AcceptTransfer(b, plan);
    AddThenClose(b, d, None);
    HoldsAfterAdd(b, d, None, d.id);
    AddKeeps(b, d, None);
    HoldsAfterClose(accepted.workspace, d.id, false, d.id);
    HoldsAfterClose(a, d.id, false, d.id);
  }
}
