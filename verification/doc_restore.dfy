// Capturing a workspace as a session and restoring a session into an empty workspace.
module DocRestore {
  import opened Basics
  import opened DocTypes
  import opened DocLaws
  import opened DocWorkspace
  import opened SessionText
  import opened DocSession
  import opened DocRoundTrip

  datatype Disposition = Restore | Missing | Changed | Untrusted | Refused
  datatype Issue = Issue(document: nat, disposition: Disposition, recentlyClosed: bool)
  datatype RestoreStatus = Complete | PartialSuccess | BadArgument | TargetNotEmpty
  // The error is the first exception a callback threw, named by the number of its entry.
  datatype RestoreResult = RestoreResult(
    status: RestoreStatus, restoredDocuments: nat, restoredRecent: nat, issues: seq<Issue>, error: Option<nat>)

  // What the two callbacks do about one entry: operations on the workspace and an answer, or an exception (None).
  datatype Assessment = Assessment(
    validateOps: seq<WorkspaceOp>, answer: Option<Disposition>, restoreOps: seq<WorkspaceOp>, accepted: Option<bool>)

  // The callbacks' behaviour at the first, second, ... entry: the open documents, then the recently closed ones.
  type Assessor = nat -> Assessment

  function Metadata(items: seq<SessionDocument>): (documents: seq<WorkspaceDocument>)
    ensures |documents| == |items|
  {
    seq(|items|, i requires 0 <= i < |items| => items[i].metadata)
  }

  function Unstamped(documents: seq<WorkspaceDocument>): (items: seq<SessionDocument>)
    ensures Metadata(items) == documents
  {
    seq(|documents|, i requires 0 <= i < |documents| => SessionDocument(documents[i], None))
  }

  function Capture(w: Workspace): WorkspaceSession {
    WorkspaceSession(w.id, w.active, Unstamped(w.documents), Unstamped(w.recent))
  }

  method CaptureWorkspaceSession(workspace: DocumentWorkspaceModel) returns (session: WorkspaceSession)
    ensures session == Capture(workspace.Now())
  {
    session := WorkspaceSession(workspace.id, workspace.active, [], []);
    for i := 0 to |workspace.documents|
      invariant session == WorkspaceSession(workspace.id, workspace.active, Unstamped(workspace.documents[..i]), [])
    {
      session := session.(documents := session.documents + [SessionDocument(workspace.documents[i], None)]);
      assert workspace.documents[..i + 1] == workspace.documents[..i] + [workspace.documents[i]];
    }
    assert workspace.documents[..|workspace.documents|] == workspace.documents;
    for i := 0 to |workspace.recentlyClosed|
      invariant session == WorkspaceSession(workspace.id, workspace.active, Unstamped(workspace.documents),
                                            Unstamped(workspace.recentlyClosed[..i]))
    {
      session := session.(recentlyClosed := session.recentlyClosed + [SessionDocument(workspace.recentlyClosed[i], None)]);
      assert workspace.recentlyClosed[..i + 1] == workspace.recentlyClosed[..i] + [workspace.recentlyClosed[i]];
    }
    assert workspace.recentlyClosed[..|workspace.recentlyClosed|] == workspace.recentlyClosed;
  }

  // ---- restoring, step by step ----

  // Asks the callbacks about an entry. An exception, a refusal or a change of the revision rejects it.
  function Judge(w: Workspace, a: Assessment, closed: bool): (Workspace, Disposition) {
    var v := Run(w, a.validateOps);
    if a.answer.None? then (v, Refused)
    else if a.answer.value != Restore then (v, if v.revision != w.revision then Refused else a.answer.value)
    else if closed then (v, if v.revision != w.revision then Refused else Restore)
    else
      var u := Run(v, a.restoreOps);
      (u, if a.accepted != Some(true) || u.revision != w.revision then Refused else Restore)
  }

  // Whether assessing an entry ends in an exception.
  predicate Throws(a: Assessment, closed: bool) {
    a.answer.None? || (a.answer.value == Restore && !closed && a.accepted.None?)
  }

  // The first exception among the first n entries, of which the first `open` are open documents.
  function FirstThrow(assess: Assessor, open: nat, n: nat): Option<nat> {
    if n == 0 then None
    else
      var before := FirstThrow(assess, open, n - 1);
      if before.None? && Throws(assess(n - 1), n - 1 >= open) then Some(n - 1) else before
  }

  datatype Restoring = Restoring(workspace: Workspace, restored: nat, issues: seq<Issue>, recent: seq<WorkspaceDocument>)

  function OpenOne(s: Restoring, d: WorkspaceDocument, a: Assessment): Restoring {
    var (v, disposition) := Judge(s.workspace, a, false);
    if disposition != Restore then s.(workspace := v, issues := s.issues + [Issue(d.id, disposition, false)])
    else
      var added := Add(v, d, None);
      if added.status != Success then s.(workspace := v, issues := s.issues + [Issue(d.id, Refused, false)])
      else s.(workspace := added.workspace, restored := s.restored + 1)
  }

  function OpenAll(s: Restoring, documents: seq<WorkspaceDocument>, assess: Assessor): Restoring {
    if documents == [] then s
    else
      var n := |documents| - 1;
      OpenOne(OpenAll(s, documents[..n], assess), documents[n], assess(n))
  }

  function RecallOne(s: Restoring, d: WorkspaceDocument, a: Assessment): Restoring {
    var (v, disposition) := Judge(s.workspace, a, true);
    if disposition != Restore then s.(workspace := v, issues := s.issues + [Issue(d.id, disposition, true)])
    else s.(workspace := v, recent := s.recent + [d])
  }

  function RecallAll(s: Restoring, documents: seq<WorkspaceDocument>, first: nat, assess: Assessor): Restoring {
    if documents == [] then s
    else
      var n := |documents| - 1;
      RecallOne(RecallAll(s, documents[..n], first, assess), documents[n], assess(first + n))
  }

  function ActivateSaved(w: Workspace, active: Option<nat>): Workspace {
    if active.Some? && Holds(w, active.value) then Activate(w, active.value).workspace else w
  }

  function RefusedRecent(documents: seq<WorkspaceDocument>): (issues: seq<Issue>)
    ensures |issues| == |documents|
  {
    seq(|documents|, i requires 0 <= i < |documents| => Issue(documents[i].id, Refused, true))
  }

  // Hands the collected entries to the workspace in one go.
  function PutBack(s: Restoring): (Restoring, nat) {
    if s.recent == [] then (s, 0)
    else
      var put := RestoreRecentlyClosed(s.workspace, s.recent);
      if put.status == Success then (s.(workspace := put.workspace), |s.recent|)
      else (s.(issues := s.issues + RefusedRecent(s.recent)), 0)
  }

  function RestoreAll(w: Workspace, session: WorkspaceSession, assess: Assessor): (Restoring, nat) {
    var documents, recent := Metadata(session.documents), Metadata(session.recentlyClosed);
    var openedAll := OpenAll(Restoring(w, 0, [], []), documents, assess);
    var active := openedAll.(workspace := ActivateSaved(openedAll.workspace, session.active));
    PutBack(RecallAll(active, recent, |documents|, assess))
  }

  // ---- the rehearsal ----

  function AddAll(w: Workspace, documents: seq<WorkspaceDocument>): Reply {
    if documents == [] then Reply(Success, w)
    else
      var n := |documents| - 1;
      var before := AddAll(w, documents[..n]);
      if before.status != Success then before else Add(before.workspace, documents[n], None)
  }

  // Whether a workspace of its own would take everything in the session.
  predicate Rehearsed(session: WorkspaceSession) {
    var probe := AddAll(Workspace(session.workspace, |session.recentlyClosed|, [], [], None, 0), Metadata(session.documents));
    probe.status == Success && RestoreRecentlyClosed(probe.workspace, Metadata(session.recentlyClosed)).status == Success
  }

  function RestoreSession(w: Workspace, session: WorkspaceSession, assess: Option<Assessor>): (RestoreResult, Workspace) {
    if session.workspace == 0 || session.workspace != w.id || assess.None? then (RestoreResult(BadArgument, 0, 0, [], None), w)
    else if w.documents != [] || w.recent != [] then (RestoreResult(TargetNotEmpty, 0, 0, [], None), w)
    else if !Rehearsed(session) then (RestoreResult(BadArgument, 0, 0, [], None), w)
    else
      var (s, recent) := RestoreAll(w, session, assess.value);
      (RestoreResult(if s.issues == [] then Complete else PartialSuccess, s.restored, recent, s.issues,
                     FirstThrow(assess.value, |session.documents|, |session.documents| + |session.recentlyClosed|)), s.workspace)
  }

  // ---- the routine ----

  method Assess(target: DocumentWorkspaceModel, a: Assessment, closed: bool, k: nat, before: Option<nat>)
    returns (disposition: Disposition, error: Option<nat>)
    requires target.Valid()
    modifies target
    ensures target.Valid() && (target.Now(), disposition) == Judge(old(target.Now()), a, closed)
    ensures error == if before.None? && Throws(a, closed) then Some(k) else before
  {
    hide Consistent, Run;
    var revision := target.revision;
    disposition, error := Refused, before;
    Perform(target, a.validateOps);
    var thrown := a.answer.None?;
    if a.answer.Some? {
      disposition := a.answer.value;
      if disposition == Restore && !closed {
        Perform(target, a.restoreOps);
        thrown := a.accepted.None?;
        if a.accepted != Some(true) { disposition := Refused; }
      }
    }
    if thrown && error.None? { error := Some(k); }
    if target.revision != revision { disposition := Refused; }
  }

  method Rehearse(session: WorkspaceSession) returns (ok: bool)
    requires session.workspace != 0
    ensures ok == Rehearsed(session)
  {
    hide Consistent, DocTypes.Add, DocTypes.RestoreRecentlyClosed;
    var documents := Metadata(session.documents);
    var probe := new DocumentWorkspaceModel(session.workspace, |session.recentlyClosed|);
    ghost var empty := probe.Now();
    assert documents[..|documents|] == documents;
    for i := 0 to |documents|
      invariant probe.Valid() && AddAll(empty, documents[..i]) == Reply(Success, probe.Now())
    {
      AddAllNext(empty, documents, i);
      var added := probe.Add(documents[i], None);
      if added.status != Success {
        AddAllFails(empty, documents, i + 1);
        return false;
      }
    }
    var recent := probe.RestoreRecentlyClosed(Metadata(session.recentlyClosed));
    ok := recent.status == Success;
  }

  lemma AddAllNext(w: Workspace, documents: seq<WorkspaceDocument>, i: nat)
    requires i < |documents| && AddAll(w, documents[..i]).status == Success
    ensures AddAll(w, documents[..i + 1]) == Add(AddAll(w, documents[..i]).workspace, documents[i], None)
  {
    assert documents[..i + 1][..i] == documents[..i];
  }

  lemma {:induction false} AddAllFails(w: Workspace, documents: seq<WorkspaceDocument>, i: nat)
    requires i <= |documents| && AddAll(w, documents[..i]).status != Success
    ensures AddAll(w, documents).status != Success
    decreases |documents|
  {
    hide DocTypes.Add;
    if i < |documents| {
      var init := documents[..|documents| - 1];
      assert init[..i] == documents[..i];
      AddAllFails(w, init, i);
    } else {
      assert documents[..i] == documents;
    }
  }

  method RestoreWorkspaceSession(target: DocumentWorkspaceModel, session: WorkspaceSession, assess: Option<Assessor>)
    returns (result: RestoreResult)
    requires target.Valid()
    modifies target
    ensures target.Valid() && (result, target.Now()) == RestoreSession(old(target.Now()), session, assess)
  {
    hide Consistent, Rehearsed, RestoreAll;
    if session.workspace == 0 || session.workspace != target.id || assess.None? { return RestoreResult(BadArgument, 0, 0, [], None); }
    if target.documents != [] || target.recentlyClosed != [] { return RestoreResult(TargetNotEmpty, 0, 0, [], None); }
    var ok := Rehearse(session);
    if !ok { return RestoreResult(BadArgument, 0, 0, [], None); }
    var restored, recent, issues, error := RestoreEntries(target, session, assess.value);
    result := RestoreResult(if issues == [] then Complete else PartialSuccess, restored, recent, issues, error);
  }

  method RestoreEntries(target: DocumentWorkspaceModel, session: WorkspaceSession, assess: Assessor)
    returns (restored: nat, putBack: nat, issues: seq<Issue>, error: Option<nat>)
    requires target.Valid()
    modifies target
    ensures target.Valid()
    ensures var (s, n) := RestoreAll(old(target.Now()), session, assess);
            target.Now() == s.workspace && restored == s.restored && issues == s.issues && putBack == n
    ensures error == FirstThrow(assess, |session.documents|, |session.documents| + |session.recentlyClosed|)
  {
    hide Consistent, OpenAll, RecallAll, Judge, DocTypes.Activate, DocTypes.RestoreRecentlyClosed, Metadata;
    ghost var w := target.Now();
    var documents, closed := Metadata(session.documents), Metadata(session.recentlyClosed);
    restored, issues, error := OpenEntries(target, documents, assess);
    if session.active.Some? && Holds(target.Now(), session.active.value) { var _ := target.Activate(session.active.value); }
    var recent;
    issues, recent, error := RecallEntries(target, closed, |documents|, assess, restored, issues, error);
    putBack := 0;
    if recent != [] {
      RestoreFailureKeeps(target.Now(), recent);
      var put := target.RestoreRecentlyClosed(recent);
      if put.status == Success {
        putBack := |recent|;
      } else {
        issues := issues + RefusedRecent(recent);
      }
    }
  }

  lemma RestoreFailureKeeps(w: Workspace, entries: seq<WorkspaceDocument>)
    ensures RestoreRecentlyClosed(w, entries).status != Success ==> RestoreRecentlyClosed(w, entries).workspace == w
  {}

  method OpenEntries(target: DocumentWorkspaceModel, documents: seq<WorkspaceDocument>, assess: Assessor)
    returns (restored: nat, issues: seq<Issue>, error: Option<nat>)
    requires target.Valid()
    modifies target
    ensures target.Valid() && error == FirstThrow(assess, |documents|, |documents|)
    ensures Restoring(target.Now(), restored, issues, []) == OpenAll(Restoring(old(target.Now()), 0, [], []), documents, assess)
  {
    hide Consistent, Judge, DocTypes.Add;
    ghost var start := Restoring(target.Now(), 0, [], []);
    restored, issues, error := 0, [], None;
    for i := 0 to |documents|
      invariant target.Valid() && error == FirstThrow(assess, |documents|, i)
      invariant Restoring(target.Now(), restored, issues, []) == OpenAll(start, documents[..i], assess)
    {
      assert documents[..i + 1][..i] == documents[..i];
      var disposition;
      disposition, error := Assess(target, assess(i), false, i, error);
      if disposition != Restore {
        issues := issues + [Issue(documents[i].id, disposition, false)];
      } else {
        ghost var v := target.Now();
        var added := target.Add(documents[i], None);
        if added.status != Success {
          AddFailureKeeps(v, documents[i], None);
          issues := issues + [Issue(documents[i].id, Refused, false)];
        } else {
          restored := restored + 1;
        }
      }
    }
    assert documents[..|documents|] == documents;
  }

  method RecallEntries(target: DocumentWorkspaceModel, documents: seq<WorkspaceDocument>, first: nat, assess: Assessor,
                       restored: nat, before: seq<Issue>, thrown: Option<nat>)
    returns (issues: seq<Issue>, recent: seq<WorkspaceDocument>, error: Option<nat>)
    requires target.Valid() && thrown == FirstThrow(assess, first, first)
    modifies target
    ensures target.Valid() && error == FirstThrow(assess, first, first + |documents|)
    ensures Restoring(target.Now(), restored, issues, recent) ==
            RecallAll(Restoring(old(target.Now()), restored, before, []), documents, first, assess)
  {
    hide Consistent, Judge, RecallAll, FirstThrow, Throws;
    ghost var start := Restoring(target.Now(), restored, before, []);
    issues, recent, error := before, [], thrown;
    RecallNone(start, first, assess);
    assert documents[..0] == [];
    for i := 0 to |documents|
      invariant target.Valid() && error == FirstThrow(assess, first, first + i)
      invariant Restoring(target.Now(), restored, issues, recent) == RecallAll(start, documents[..i], first, assess)
    {
      RecallNext(start, documents, first, assess, i);
      ThrowNext(assess, first, first + i);
      var disposition;
      disposition, error := Assess(target, assess(first + i), true, first + i, error);
      if disposition != Restore {
        issues := issues + [Issue(documents[i].id, disposition, true)];
      } else {
        recent := recent + [documents[i]];
      }
    }
    assert documents[..|documents|] == documents;
  }

  lemma RecallNone(s: Restoring, first: nat, assess: Assessor)
    ensures RecallAll(s, [], first, assess) == s
  {}

  lemma RecallNext(s: Restoring, documents: seq<WorkspaceDocument>, first: nat, assess: Assessor, i: nat)
    requires i < |documents|
    ensures RecallAll(s, documents[..i + 1], first, assess) ==
            RecallOne(RecallAll(s, documents[..i], first, assess), documents[i], assess(first + i))
  {
    hide RecallOne;
    assert documents[..i + 1][..i] == documents[..i];
  }

  lemma ThrowNext(assess: Assessor, open: nat, n: nat)
    ensures FirstThrow(assess, open, n + 1) ==
            if FirstThrow(assess, open, n).None? && Throws(assess(n), n >= open) then Some(n) else FirstThrow(assess, open, n)
  {}

  // ---- every entry is accounted for ----

  lemma {:induction false} OpenAccounts(s: Restoring, documents: seq<WorkspaceDocument>, assess: Assessor)
    ensures var r := OpenAll(s, documents, assess);
            r.restored + |r.issues| == s.restored + |s.issues| + |documents| && r.recent == s.recent
  {
    hide Judge, DocTypes.Add;
    if documents == [] {
    } else {
      OpenAccounts(s, documents[..|documents| - 1], assess);
    }
  }

  lemma {:induction false} RecallAccounts(s: Restoring, documents: seq<WorkspaceDocument>, first: nat, assess: Assessor)
    ensures var r := RecallAll(s, documents, first, assess);
            |r.recent| + |r.issues| == |s.recent| + |s.issues| + |documents| && r.restored == s.restored
            && |r.issues| >= |s.issues|
  {
    hide Judge;
    if documents == [] {
    } else {
      RecallAccounts(s, documents[..|documents| - 1], first, assess);
    }
  }

  // Whatever the callbacks answer, throw or do to the workspace: once restoring begins, every entry of the session is
  // restored or reported, and the status says which.
  lemma RestoreAccountsForAll(w: Workspace, session: WorkspaceSession, assess: Option<Assessor>)
    ensures var r := RestoreSession(w, session, assess).0;
            && (r.status in {Complete, PartialSuccess} ==>
                  r.restoredDocuments + r.restoredRecent + |r.issues| == |session.documents| + |session.recentlyClosed|)
            && (r.status == Complete ==> r.restoredDocuments == |session.documents| && r.restoredRecent == |session.recentlyClosed|)
            && (r.status == PartialSuccess ==> r.issues != [])
  {
    hide OpenAll, RecallAll, Rehearsed, DocTypes.RestoreRecentlyClosed, DocTypes.Activate;
    if assess.Some? {
      var documents, recent := Metadata(session.documents), Metadata(session.recentlyClosed);
      var openedAll := OpenAll(Restoring(w, 0, [], []), documents, assess.value);
      OpenAccounts(Restoring(w, 0, [], []), documents, assess.value);
      RecallAccounts(openedAll.(workspace := ActivateSaved(openedAll.workspace, session.active)), recent, |documents|, assess.value);
    }
  }

  // ---- exceptions ----

  lemma {:induction false} FirstThrowMeans(assess: Assessor, open: nat, n: nat)
    ensures match FirstThrow(assess, open, n)
            case None => forall k: nat :: k < n ==> !Throws(assess(k), k >= open)
            case Some(k) => k < n && Throws(assess(k), k >= open) && forall j: nat :: j < k ==> !Throws(assess(j), j >= open)
  {
    if n == 0 {
    } else {
      FirstThrowMeans(assess, open, n - 1);
    }
  }

  lemma {:induction false} OpenThrowIssued(s: Restoring, documents: seq<WorkspaceDocument>, assess: Assessor, k: nat)
    requires k < |documents| && Throws(assess(k), false)
    ensures Issue(documents[k].id, Refused, false) in OpenAll(s, documents, assess).issues
    decreases |documents|
  {
    hide DocTypes.Add, Run;
    var n := |documents| - 1;
    if k < n {
      OpenThrowIssued(s, documents[..n], assess, k);
    }
  }

  lemma {:induction false} RecallThrowIssued(s: Restoring, documents: seq<WorkspaceDocument>, first: nat, assess: Assessor, k: nat)
    requires k < |documents| && Throws(assess(first + k), true)
    ensures Issue(documents[k].id, Refused, true) in RecallAll(s, documents, first, assess).issues
    decreases |documents|
  {
    hide Run;
    var n := |documents| - 1;
    if k < n {
      RecallThrowIssued(s, documents[..n], first, assess, k);
    }
  }

  lemma {:induction false} RecallKeepsIssues(s: Restoring, documents: seq<WorkspaceDocument>, first: nat, assess: Assessor)
    ensures s.issues <= RecallAll(s, documents, first, assess).issues
  {
    hide Judge;
    if documents == [] {
    } else {
      RecallKeepsIssues(s, documents[..|documents| - 1], first, assess);
    }
  }

  // An exception never gets lost: the first one is kept, and the entry it concerns is reported as refused.
  lemma ExceptionsAreReported(w: Workspace, session: WorkspaceSession, assess: Assessor)
    ensures var r := RestoreSession(w, session, Some(assess)).0;
            r.error.Some? ==>
              && r.status == PartialSuccess && r.error.value < |session.documents| + |session.recentlyClosed|
              && var open := r.error.value < |session.documents|;
                 var item := if open then session.documents[r.error.value] else session.recentlyClosed[r.error.value - |session.documents|];
                 Issue(item.metadata.id, Refused, !open) in r.issues
  {
    hide OpenAll, RecallAll, Rehearsed, DocTypes.RestoreRecentlyClosed, DocTypes.Activate, Throws;
    var r := RestoreSession(w, session, Some(assess)).0;
    var documents, recent := Metadata(session.documents), Metadata(session.recentlyClosed);
    FirstThrowMeans(assess, |documents|, |documents| + |recent|);
    if r.error.Some? {
      var k := r.error.value;
      var start := Restoring(w, 0, [], []);
      var openedAll := OpenAll(start, documents, assess);
      var active := openedAll.(workspace := ActivateSaved(openedAll.workspace, session.active));
      RecallKeepsIssues(active, recent, |documents|, assess);
      if k < |documents| {
        OpenThrowIssued(start, documents, assess, k);
      } else {
        RecallThrowIssued(active, recent, |documents|, assess, k - |documents|);
      }
    }
  }
}
