// A drag: one transaction over the layout model and the native windows.
module DockDrag {
  import opened Basics
  import opened DockTypes
  import opened DockValidate
  import opened DockMutation
  import opened DockModel

  datatype DockPointDip = DockPointDip(x: real, y: real)

  datatype DockRectDip = DockRectDip(x: real, y: real, width: real, height: real) {
    predicate IsValid() { 0.0 < width <= 100000.0 && 0.0 < height <= 100000.0 }
    predicate Contains(p: DockPointDip) {
      IsValid() && x <= p.x < x + width && y <= p.y < y + height
    }
    function Area(): real { width * height }
  }

  datatype DockTargetKind = TabGroupTarget | SplitTarget | AutoHideTarget | FloatingTarget

  datatype DockDropTarget = DockDropTarget(
    id: nat, kind: DockTargetKind, bounds: DockRectDip, group: nat, edge: DockEdge, priority: int, enabled: bool)

  // ---- hit testing ----

  predicate Eligible(t: DockDropTarget, p: DockPointDip) {
    t.enabled && t.id != 0 && t.bounds.Contains(p) && (t.kind in {TabGroupTarget, SplitTarget} ==> t.group != 0)
  }

  // Higher priority first, then the smaller rectangle, then the smaller id.
  predicate Beats(a: DockDropTarget, b: DockDropTarget) {
    a.priority > b.priority ||
    (a.priority == b.priority && a.bounds.Area() < b.bounds.Area()) ||
    (a.priority == b.priority && a.bounds.Area() == b.bounds.Area() && a.id < b.id)
  }

  // targets[k] is the first of the best eligible targets.
  predicate BestAt(targets: seq<DockDropTarget>, p: DockPointDip, k: nat) {
    && k < |targets| && Eligible(targets[k], p)
    && (forall j :: 0 <= j < |targets| && Eligible(targets[j], p) ==> !Beats(targets[j], targets[k]))
    && (forall j :: 0 <= j < k && Eligible(targets[j], p) ==> Beats(targets[k], targets[j]))
  }

  function HitTest(p: DockPointDip, targets: seq<DockDropTarget>): Option<DockDropTarget> {
    if targets == [] then None
    else
      var best, last := HitTest(p, targets[..|targets| - 1]), targets[|targets| - 1];
      if Eligible(last, p) && (best.None? || Beats(last, best.value)) then Some(last) else best
  }

  method HitTestDockTargets(p: DockPointDip, targets: seq<DockDropTarget>) returns (r: Option<DockDropTarget>, ghost at: nat)
    ensures r == HitTest(p, targets)
    ensures r.None? <==> forall t :: t in targets ==> !Eligible(t, p)
    ensures r.Some? ==> BestAt(targets, p, at) && r.value == targets[at]
  {
    r, at := None, 0;
    hide Eligible, Beats;
    for i := 0 to |targets|
      invariant r == HitTest(p, targets[..i])
      invariant r.None? <==> forall j :: 0 <= j < i ==> !Eligible(targets[j], p)
      invariant r.Some? ==> at < i && BestAt(targets[..i], p, at) && r.value == targets[at]
    {
      var target := targets[i];
      assert targets[..i + 1] == targets[..i] + [target] && targets[..i + 1][..i] == targets[..i];
      if Eligible(target, p) {
        if r.None? || Beats(target, r.value) {
          NewBest(targets, p, i, r.Some?, at);
          r, at := Some(target), i;
        } else {
          OldBest(targets, p, i, at);
        }
      } else {
        SameBest(targets, p, i, r.Some?, at);
      }
    }
    assert targets[..|targets|] == targets;
    if r.None? { assert forall t :: t in targets ==> !Eligible(t, p); }
  }

  lemma BeatsIsTransitive(a: DockDropTarget, b: DockDropTarget, c: DockDropTarget)
    ensures !Beats(a, a)
    ensures Beats(a, b) && Beats(b, c) ==> Beats(a, c)
    ensures Beats(a, b) ==> !Beats(b, a)
    ensures Beats(a, b) && !Beats(c, b) ==> Beats(a, c)
  {}

  lemma NewBest(targets: seq<DockDropTarget>, p: DockPointDip, i: nat, some: bool, at: nat)
    requires i < |targets| && Eligible(targets[i], p)
    requires !some ==> forall j :: 0 <= j < i ==> !Eligible(targets[j], p)
    requires some ==> at < i && BestAt(targets[..i], p, at) && Beats(targets[i], targets[at])
    ensures BestAt(targets[..i + 1], p, i)
  {
    forall j | 0 <= j < i && Eligible(targets[j], p) ensures Beats(targets[i], targets[j]) && !Beats(targets[j], targets[i]) {
      assert targets[..i][j] == targets[j];
      BeatsIsTransitive(targets[i], targets[at], targets[j]);
      BeatsIsTransitive(targets[i], targets[j], targets[i]);
    }
    BeatsIsTransitive(targets[i], targets[i], targets[i]);
    assert forall j :: 0 <= j < i + 1 ==> targets[..i + 1][j] == targets[j];
  }

  lemma OldBest(targets: seq<DockDropTarget>, p: DockPointDip, i: nat, at: nat)
    requires i < |targets| && at < i && BestAt(targets[..i], p, at) && !Beats(targets[i], targets[at])
    ensures BestAt(targets[..i + 1], p, at)
  {
    assert forall j :: 0 <= j < i ==> targets[..i][j] == targets[j] == targets[..i + 1][j];
  }

  lemma SameBest(targets: seq<DockDropTarget>, p: DockPointDip, i: nat, some: bool, at: nat)
    requires i < |targets| && !Eligible(targets[i], p) && (some ==> at < i && BestAt(targets[..i], p, at))
    ensures some ==> BestAt(targets[..i + 1], p, at)
  {
    assert forall j :: 0 <= j < i ==> targets[..i][j] == targets[j] == targets[..i + 1][j];
  }

  // The description leaves no choice: there is one best target.
  lemma BestIsUnique(targets: seq<DockDropTarget>, p: DockPointDip, i: nat, j: nat)
    requires BestAt(targets, p, i) && BestAt(targets, p, j)
    ensures i == j
  {
    hide Eligible, Beats;
  }

  // ---- the session as a value ----

  datatype DockDragState = Idle | Tracking | Proposed | Committed | Cancelled
  datatype DockDragCancelReason =
    | ExplicitCancel | Escape | CaptureLost | SourceDestroyed | TargetDestroyed
    | InvalidProposal | AdoptionFailedReason | CallbackFailedReason | StaleReason
  datatype DockDragCommitStatus = CommitSuccess | InvalidState | AdoptionFailed | CallbackFailed | LayoutFailed
  datatype DockDragCommitResult = DockDragCommitResult(status: DockDragCommitStatus, layoutStatus: DockLayoutStatus)

  datatype Drag = Drag(state: DockDragState, panel: nat, sourceRevision: nat, original: Option<DockLayoutSnapshot>,
                       target: Option<DockDropTarget>, proposal: Option<DockLayoutTransaction>,
                       cancelReason: Option<DockDragCancelReason>)

  const IDLE := Drag(Idle, 0, 0, None, None, None, None)

  ghost predicate ValidDrag(d: Drag) {
    && (d.state == Proposed <==> d.proposal.Some?)
    && (d.proposal.Some? ==>
          ValidTransaction(d.proposal.value) && d.proposal.value.sourceRevision == d.sourceRevision &&
          d.proposal.value.mutation.panel == d.panel)
    && (d.state != Idle ==> d.original.Some?)
    && (d.state in {Idle, Committed, Cancelled} ==> d.target.None?)
  }

  predicate CanBegin(d: Drag, layout: DockLayoutSnapshot, id: nat) {
    d.state == Idle && id != 0 && id in PanelIds(layout.panels)
  }

  function AfterBegin(d: Drag, layout: LayoutState, id: nat): Drag {
    if !CanBegin(d, layout.snapshot, id) then d
    else d.(state := Tracking, panel := id, sourceRevision := layout.revision, original := Some(layout.snapshot))
  }

  function AfterUpdate(d: Drag, p: DockPointDip, targets: seq<DockDropTarget>): Drag {
    if d.state != Tracking && d.state != Proposed then d
    else d.(state := Tracking, target := HitTest(p, targets), proposal := None)
  }

  ghost predicate CanPropose(d: Drag, t: DockLayoutTransaction) {
    d.state == Tracking && t.sourceRevision == d.sourceRevision && t.mutation.panel == d.panel && ValidTransaction(t)
  }

  ghost function AfterProposal(d: Drag, t: DockLayoutTransaction): Drag {
    if CanPropose(d, t) then d.(state := Proposed, proposal := Some(t)) else AfterCancel(d, InvalidProposal)
  }

  function AfterCancel(d: Drag, reason: DockDragCancelReason): Drag {
    if d.state == Committed || d.state == Idle then d
    else d.(state := Cancelled, target := None, proposal := None, cancelReason := Some(reason))
  }

  // ---- callbacks ----

  datatype DragCall =
    | Begin(panel: nat)
    | UpdateTarget(point: DockPointDip, targets: seq<DockDropTarget>)
    | SetProposal(t: DockLayoutTransaction)
    | Cancel(reason: DockDragCancelReason)
    | Reset

  // What a callback may call: the layout model, and the session that is calling it.
  datatype CallbackOp = LayoutCall(op: LayoutOp) | SessionCall(call: DragCall)

  datatype World = World(drag: Drag, layout: LayoutState)

  ghost function AfterDragCall(w: World, call: DragCall): Drag {
    match call
    case Begin(id) => AfterBegin(w.drag, w.layout, id)
    case UpdateTarget(point, targets) => AfterUpdate(w.drag, point, targets)
    case SetProposal(t) => AfterProposal(w.drag, t)
    case Cancel(reason) => AfterCancel(w.drag, reason)
    case Reset => IDLE
  }

  ghost function AfterOne(w: World, op: CallbackOp): World {
    match op
    case LayoutCall(o) => w.(layout := Step(w.layout, o))
    case SessionCall(call) => w.(drag := AfterDragCall(w, call))
  }

  ghost function AfterCalls(w: World, ops: seq<CallbackOp>): World {
    if ops == [] then w else AfterOne(AfterCalls(w, ops[..|ops| - 1]), ops[|ops| - 1])
  }

  // The calls among them that reach the layout.
  function LayoutOps(ops: seq<CallbackOp>): seq<LayoutOp> {
    if ops == [] then []
    else
      var last := ops[|ops| - 1];
      LayoutOps(ops[..|ops| - 1]) + (if last.LayoutCall? then [last.op] else [])
  }

  lemma {:induction false} CallsRunLayout(w: World, ops: seq<CallbackOp>)
    ensures AfterCalls(w, ops).layout == Run(w.layout, LayoutOps(ops))
  {
    hide Step, AfterDragCall;
    if ops == [] {
    } else {
      CallsRunLayout(w, ops[..|ops| - 1]);
      var init, last := LayoutOps(ops[..|ops| - 1]), ops[|ops| - 1];
      if last.LayoutCall? { assert (init + [last.op])[..|init|] == init; } else { assert init + [] == init; }
    }
  }

  predicate LeavesSession(ops: seq<CallbackOp>) { forall op :: op in ops ==> op.LayoutCall? }

  lemma {:induction false} SessionLeft(w: World, ops: seq<CallbackOp>)
    requires LeavesSession(ops)
    ensures AfterCalls(w, ops).drag == w.drag
  {
    hide Step, AfterDragCall;
    if ops == [] {
    } else {
      SessionLeft(w, ops[..|ops| - 1]);
      assert ops[|ops| - 1] in ops;
    }
  }

  lemma CallKeepsValid(w: World, call: DragCall)
    requires ValidDrag(w.drag)
    ensures ValidDrag(AfterDragCall(w, call))
  {
    hide ValidTransaction, HitTest;
  }

  lemma {:induction false} CallsKeepValid(w: World, ops: seq<CallbackOp>)
    requires ValidDrag(w.drag)
    ensures ValidDrag(AfterCalls(w, ops).drag)
  {
    hide ValidDrag, Step, AfterDragCall;
    if ops == [] {
    } else {
      CallsKeepValid(w, ops[..|ops| - 1]);
      var last := ops[|ops| - 1];
      if last.SessionCall? { CallKeepsValid(AfterCalls(w, ops[..|ops| - 1]), last.call); }
    }
  }

  datatype AdoptOutcome = Adopts | Declines | Throws

  // What a callback calls while it runs, and how it ends.
  datatype AdoptHandler = AdoptHandler(calls: seq<CallbackOp>, outcome: AdoptOutcome)
  datatype RollbackHandler = RollbackHandler(calls: seq<CallbackOp>, throws: bool)

  // The calls the session makes on the application. A rollback is handed the layout the session holds: the one of the
  // beginning, or none once the session has been reset.
  class NativeSide {
    var adoptions: seq<DockLayoutSnapshot>
    var rollbacks: seq<Option<DockLayoutSnapshot>>

    constructor ()
      ensures adoptions == [] && rollbacks == []
    {
      adoptions, rollbacks := [], [];
    }
  }

  // ---- committing ----

  datatype CommitTrace = CommitTrace(world: World, result: DockDragCommitResult, rollbacks: seq<Option<DockLayoutSnapshot>>)

  // The end of a commit that is given up: rollback, then the session is cancelled unless rollback has ended it.
  ghost function GivenUp(w: World, rollback: RollbackHandler, reason: DockDragCancelReason, result: DockDragCommitResult): CommitTrace {
    var v := AfterCalls(w, rollback.calls);
    CommitTrace(v.(drag := AfterCancel(v.drag, reason)), result, [w.drag.original])
  }

  ghost function Commits(w: World, adopt: AdoptHandler, rollback: RollbackHandler): CommitTrace
    requires adopt.outcome == Adopts ==> AfterCalls(w, adopt.calls).drag.proposal.Some?
  {
    var v := AfterCalls(w, adopt.calls);
    match adopt.outcome
    case Throws => GivenUp(v, rollback, CallbackFailedReason, DockDragCommitResult(CallbackFailed, InvalidArgument))
    case Declines =>
      if rollback.throws then GivenUp(v, rollback, CallbackFailedReason, DockDragCommitResult(CallbackFailed, InvalidArgument))
      else GivenUp(v, rollback, AdoptionFailedReason, DockDragCommitResult(AdoptionFailed, InvalidArgument))
    case Adopts =>
      var t := v.drag.proposal.value;
      var status := if t.sourceRevision != v.layout.revision then StaleTransaction
                    else if ValidSnapshot(t.proposed) then Success else LayoutStatus(t.proposed);
      if status == Success then
        CommitTrace(World(v.drag.(state := Committed, target := None, proposal := None), Step(v.layout, CommitOp(t))),
                    DockDragCommitResult(CommitSuccess, Success), [])
      else
        GivenUp(v, rollback, if status == StaleTransaction then StaleReason else InvalidProposal,
                DockDragCommitResult(if rollback.throws then CallbackFailed else LayoutFailed, status))
  }

  // Whatever the callbacks call: either the proposal in force after adoption is installed over the layout as adoption left
  // it, and nothing is rolled back; or the session makes no change to the layout, calls rollback once, and ends cancelled
  // unless rollback reset it. A failure of the layout means that its revision is not the one of the beginning.
  lemma CommitIsAllOrNothing(w: World, adopt: AdoptHandler, rollback: RollbackHandler)
    requires ValidDrag(w.drag) && (adopt.outcome == Adopts ==> AfterCalls(w, adopt.calls).drag.proposal.Some?)
    ensures var c := Commits(w, adopt, rollback);
            var adopted := AfterCalls(w, adopt.calls);
            var layout := Run(w.layout, LayoutOps(adopt.calls));
            var fits := adopt.outcome == Adopts && layout.revision == adopted.drag.sourceRevision;
            && ValidDrag(c.world.drag)
            && (c.result.status == CommitSuccess <==> fits)
            && (fits ==>
                  && c.world.layout == LayoutState(adopted.drag.proposal.value.proposed, layout.revision + 1)
                  && c.rollbacks == [] && c.world.drag.state == Committed)
            && (!fits ==>
                  && c.world.layout == Run(layout, LayoutOps(rollback.calls))
                  && c.rollbacks == [adopted.drag.original]
                  && c.world.drag.state == if AfterCalls(adopted, rollback.calls).drag.state in {Idle, Committed}
                                           then AfterCalls(adopted, rollback.calls).drag.state else Cancelled)
            && (c.result.status == LayoutFailed ==> layout.revision != adopted.drag.sourceRevision && c.result.layoutStatus == StaleTransaction)
            && (c.result.status == AdoptionFailed ==> adopt.outcome == Declines)
            && (c.result.status == CallbackFailed ==> adopt.outcome == Throws || rollback.throws)
  {
    hide AfterCalls, Run, LayoutOps, ValidSnapshot, LayoutStatus, HitTest;
    var adopted := AfterCalls(w, adopt.calls);
    CallsRunLayout(w, adopt.calls);
    CallsKeepValid(w, adopt.calls);
    CallsRunLayout(adopted, rollback.calls);
    CallsKeepValid(adopted, rollback.calls);
  }

  // With callbacks that leave the session alone: exactly the proposal is installed, or rollback is handed the layout of
  // the beginning and the session ends cancelled.
  lemma CommitWithPlainCallbacks(w: World, adopt: AdoptHandler, rollback: RollbackHandler)
    requires ValidDrag(w.drag) && w.drag.state == Proposed && LeavesSession(adopt.calls) && LeavesSession(rollback.calls)
    ensures AfterCalls(w, adopt.calls).drag.proposal.Some?
    ensures var c := Commits(w, adopt, rollback);
            if c.result.status == CommitSuccess then
              && c.world.layout == LayoutState(w.drag.proposal.value.proposed, w.drag.sourceRevision + 1)
              && c.rollbacks == [] && c.world.drag.state == Committed
            else
              && c.world.layout == Run(Run(w.layout, LayoutOps(adopt.calls)), LayoutOps(rollback.calls))
              && c.rollbacks == [w.drag.original] && c.world.drag.state == Cancelled
  {
    hide AfterCalls, Run, LayoutOps, Commits, ValidTransaction, LeavesSession;
    SessionLeft(w, adopt.calls);
    SessionLeft(AfterCalls(w, adopt.calls), rollback.calls);
    CommitIsAllOrNothing(w, adopt, rollback);
  }

  // ---- the session ----

  class DockDragSession {
    var state: DockDragState
    var panel: nat
    var sourceRevision: nat
    var original: Option<DockLayoutSnapshot>
    var target: Option<DockDropTarget>
    var proposal: Option<DockLayoutTransaction>
    var cancelReason: Option<DockDragCancelReason>

    ghost function Now(): Drag
      reads this
    {
      Drag(state, panel, sourceRevision, original, target, proposal, cancelReason)
    }

    ghost predicate Valid()
      reads this
    {
      ValidDrag(Now())
    }

    constructor ()
      ensures Valid() && Now() == IDLE
    {
      state, panel, sourceRevision := Idle, 0, 0;
      original, target, proposal, cancelReason := None, None, None, None;
    }

    method Begin(model: DockLayoutModel, id: nat) returns (ok: bool)
      requires Valid()
      modifies this
      ensures Valid() && Now() == AfterBegin(old(Now()), model.Now(), id)
      ensures ok <==> CanBegin(old(Now()), model.state, id)
    {
      if state != Idle || id == 0 || FindPanel(model.state.panels, id).None? { return false; }
      original := Some(model.state);
      panel := id;
      sourceRevision := model.revision;
      state := Tracking;
      ok := true;
    }

    method UpdateTarget(point: DockPointDip, targets: seq<DockDropTarget>) returns (hit: Option<DockDropTarget>)
      requires Valid()
      modifies this
      ensures Valid() && Now() == AfterUpdate(old(Now()), point, targets)
      ensures hit == if old(state) in {Tracking, Proposed} then HitTest(point, targets) else None
    {
      if state != Tracking && state != Proposed { return None; }
      ghost var at;
      hit, at := HitTestDockTargets(point, targets);
      target := hit;
      proposal := None;
      state := Tracking;
    }

    method SetProposal(t: DockLayoutTransaction) returns (ok: bool)
      requires Valid()
      modifies this
      ensures Valid() && Now() == AfterProposal(old(Now()), t)
      ensures ok <==> CanPropose(old(Now()), t)
    {
      hide ValidSnapshot, LayoutStatus;
      var status := Validate(t.proposed);
      if state != Tracking || t.sourceRevision != sourceRevision || t.mutation.panel != panel ||
         t.sourceRevision == 0 || t.mutation.panel == 0 || t.proposed.mainRoot == 0 || status != Success {
        Cancel(InvalidProposal);
        return false;
      }
      proposal := Some(t);
      state := Proposed;
      ok := true;
    }

    method Cancel(reason: DockDragCancelReason)
      requires Valid()
      modifies this
      ensures Valid() && Now() == AfterCancel(old(Now()), reason)
    {
      if state == Committed || state == Idle { return; }
      proposal := None;
      target := None;
      cancelReason := Some(reason);
      state := Cancelled;
    }

    method Reset()
      modifies this
      ensures Valid() && Now() == IDLE
    {
      state, panel, sourceRevision := Idle, 0, 0;
      original, target, proposal, cancelReason := None, None, None, None;
    }

    // The calls of one callback, in order.
    method Play(model: DockLayoutModel, calls: seq<CallbackOp>)
      requires Valid()
      modifies this, model
      ensures Valid() && World(Now(), model.Now()) == AfterCalls(World(old(Now()), old(model.Now())), calls)
    {
      hide Step, ValidDrag, AfterBegin, AfterUpdate, AfterProposal, AfterCancel;
      ghost var start := World(Now(), model.Now());
      assert calls[..0] == [];
      for i := 0 to |calls|
        invariant Valid() && World(Now(), model.Now()) == AfterCalls(start, calls[..i])
      {
        assert calls[..i + 1][..i] == calls[..i];
        match calls[i] {
          case LayoutCall(op) => CallLayout(model, op);
          case SessionCall(call) => CallSession(model, call);
        }
      }
      assert calls[..|calls|] == calls;
    }

    method CallSession(model: DockLayoutModel, call: DragCall)
      requires Valid()
      modifies this
      ensures Valid() && Now() == AfterDragCall(World(old(Now()), model.Now()), call)
    {
      hide ValidDrag, AfterBegin, AfterUpdate, AfterProposal, AfterCancel;
      match call {
        case Begin(id) => var _ := this.Begin(model, id);
        case UpdateTarget(point, targets) => var _ := this.UpdateTarget(point, targets);
        case SetProposal(t) => var _ := this.SetProposal(t);
        case Cancel(reason) => this.Cancel(reason);
        case Reset => this.Reset();
      }
    }

    // What the callbacks are left to see to: a proposal must be in force when adoption says that it succeeded.
    method Commit(model: DockLayoutModel, native: NativeSide, adopt: Option<AdoptHandler>, rollback: Option<RollbackHandler>)
      returns (result: DockDragCommitResult)
      requires Valid()
      requires state == Proposed && adopt.Some? && adopt.value.outcome == Adopts ==>
                 AfterCalls(World(Now(), model.Now()), adopt.value.calls).drag.proposal.Some?
      modifies this, model, native
      ensures Valid()
      ensures (old(state) != Proposed || adopt.None? || rollback.None?) ==>
                result == DockDragCommitResult(InvalidState, InvalidArgument) && Now() == old(Now()) &&
                model.Now() == old(model.Now()) && native.adoptions == old(native.adoptions) && native.rollbacks == old(native.rollbacks)
      ensures old(state) == Proposed && adopt.Some? && rollback.Some? ==>
                var c := Commits(World(old(Now()), old(model.Now())), adopt.value, rollback.value);
                && World(Now(), model.Now()) == c.world && result == c.result
                && native.adoptions == old(native.adoptions) + [old(proposal).value.proposed]
                && native.rollbacks == old(native.rollbacks) + c.rollbacks
    {
      hide AfterCalls, ValidSnapshot, LayoutStatus, ValidDrag, Step;
      if state == Proposed { ProposedHasOne(Now()); }
      if state != Proposed || proposal.None? || adopt.None? || rollback.None? {
        return DockDragCommitResult(InvalidState, InvalidArgument);
      }
      native.adoptions := native.adoptions + [proposal.value.proposed];
      Play(model, adopt.value.calls);
      if adopt.value.outcome == Throws {
        CallRollback(model, native, rollback.value);
        Cancel(CallbackFailedReason);
        return DockDragCommitResult(CallbackFailed, InvalidArgument);
      }
      if adopt.value.outcome == Declines {
        CallRollback(model, native, rollback.value);
        if rollback.value.throws {
          Cancel(CallbackFailedReason);
          return DockDragCommitResult(CallbackFailed, InvalidArgument);
        }
        Cancel(AdoptionFailedReason);
        return DockDragCommitResult(AdoptionFailed, InvalidArgument);
      }
      CommitStep(model.Now(), proposal.value);
      var committed := model.Commit(proposal.value);
      if committed.status != Success {
        CallRollback(model, native, rollback.value);
        Cancel(if committed.status == StaleTransaction then StaleReason else InvalidProposal);
        return DockDragCommitResult(if rollback.value.throws then CallbackFailed else LayoutFailed, committed.status);
      }
      assert ValidDrag(Drag(Committed, panel, sourceRevision, original, None, None, cancelReason)) by { CommittedIsValid(Now()); }
      proposal := None;
      target := None;
      state := Committed;
      result := DockDragCommitResult(CommitSuccess, Success);
    }

    method CallRollback(model: DockLayoutModel, native: NativeSide, handler: RollbackHandler)
      requires Valid()
      modifies this, model, native
      ensures Valid() && World(Now(), model.Now()) == AfterCalls(World(old(Now()), old(model.Now())), handler.calls)
      ensures native.rollbacks == old(native.rollbacks) + [old(original)] && native.adoptions == old(native.adoptions)
    {
      native.rollbacks := native.rollbacks + [original];
      Play(model, handler.calls);
    }
  }

  lemma ProposedHasOne(d: Drag)
    requires ValidDrag(d) && d.state == Proposed
    ensures d.proposal.Some?
  {}

  lemma CommitStep(ls: LayoutState, t: DockLayoutTransaction)
    ensures t.sourceRevision != ls.revision || !ValidSnapshot(t.proposed) ==> Step(ls, CommitOp(t)) == ls
  {}

  lemma CommittedIsValid(d: Drag)
    requires ValidDrag(d) && d.proposal.Some?
    ensures ValidDrag(d.(state := Committed, target := None, proposal := None))
  {}

  method CallLayout(model: DockLayoutModel, op: LayoutOp)
    modifies model
    ensures model.Now() == Step(old(model.Now()), op)
  {
    hide Step;
    match op {
      case AddDockedGroupOp(q) => var _ := model.AddDockedGroup(q);
      case AddPanelOp(panel, group, index) => var _ := model.AddPanel(panel, group, index);
      case CommitOp(t) => var _ := model.Commit(t);
      case ReplaceOp(s) => var _ := model.Replace(s);
    }
  }

  // From Begin to the end of adoption the model may be called in any way; if the commit then succeeds, the layout it
  // replaces is still the one the drag began with, so what rollback would have restored is what was on screen.
  lemma SuccessReplacesTheOriginal(began: LayoutState, before: seq<LayoutOp>, during: seq<LayoutOp>, t: DockLayoutTransaction)
    requires ValidTransaction(t) && t.sourceRevision == began.revision
    ensures var adopted := Run(Run(began, before), during);
            adopted.revision == t.sourceRevision ==>
              adopted.snapshot == began.snapshot && Step(adopted, CommitOp(t)) == LayoutState(t.proposed, began.revision + 1)
  {
    RunConcat(began, before, during);
    RevisionIdentifiesLayout(began, before + during);
  }
}
