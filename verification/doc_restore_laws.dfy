// Restoring what was captured gives the workspace back.
module DocRestoreLaws {
  import opened Basics
  import opened DocTypes
  import opened DocLaws
  import opened UnitText
  import opened SessionText
  import opened DocSession
  import opened DocEncoding
  import opened DocAccepted
  import opened DocRoundTrip
  import opened DocRestore

  // ---- lists a workspace can take in order ----

  predicate Clean(documents: seq<WorkspaceDocument>) {
    (forall d :: d in documents ==> ValidDocument(d)) && DistinctDocuments(documents)
  }

  lemma CleanSnoc(documents: seq<WorkspaceDocument>, d: WorkspaceDocument)
    ensures Clean(documents + [d]) <==> Clean(documents) && ValidDocument(d) && !Collides(documents, d)
  {
    hide ValidDocument, SamePath;
    var all := documents + [d];
    assert all[|documents|] == d && d in all;
    if Clean(all) {
      forall x | x in documents ensures x.id != d.id && !SamePath(x.path, d.path) {
        var i :| 0 <= i < |documents| && documents[i] == x;
        assert all[i] == x;
      }
      forall i, j | 0 <= i < j < |documents|
        ensures documents[i].id != documents[j].id && !SamePath(documents[i].path, documents[j].path)
      {
        assert all[i] == documents[i] && all[j] == documents[j];
      }
      forall x | x in documents ensures ValidDocument(x) { assert x in all; }
    }
    if Clean(documents) && ValidDocument(d) && !Collides(documents, d) {
      assert forall k :: 0 <= k < |documents| ==> documents[k] in documents;
    }
  }

  lemma CollidesAmongMore(some: seq<WorkspaceDocument>, more: seq<WorkspaceDocument>, d: WorkspaceDocument)
    requires (forall x :: x in some ==> x in more) && !Collides(more, d)
    ensures !Collides(some, d)
  {}

  lemma CleanNext(base: seq<WorkspaceDocument>, documents: seq<WorkspaceDocument>, k: nat)
    requires k < |documents|
    ensures Clean(base + documents[..k + 1]) <==>
            Clean(base + documents[..k]) && ValidDocument(documents[k]) && !Collides(base + documents[..k], documents[k])
  {
    hide Clean, Collides;
    CleanSnoc(base + documents[..k], documents[k]);
    assert base + documents[..k] + [documents[k]] == base + documents[..k + 1];
  }

  lemma {:induction false} CleanPrefix(base: seq<WorkspaceDocument>, documents: seq<WorkspaceDocument>, k: nat)
    requires k <= |documents| && Clean(base + documents)
    ensures Clean(base + documents[..k])
    decreases |documents| - k
  {
    hide Clean, Collides;
    if k == |documents| {
      assert documents[..k] == documents;
    } else {
      CleanPrefix(base, documents, k + 1);
      CleanNext(base, documents, k);
    }
  }

  lemma AddsWhen(w: Workspace, d: WorkspaceDocument)
    ensures Add(w, d, None).status == Success <==> ValidDocument(d) && !Collides(w.documents, d)
    ensures Add(w, d, None).status == Success ==>
              Add(w, d, None).workspace == w.(documents := w.documents + [d], revision := w.revision + 1,
                                              active := if w.active.None? then Some(d.id) else w.active)
  {
    if Add(w, d, None).status == Success { NoCollision(w, d); }
    if ValidDocument(d) && !Collides(w.documents, d) { HeldCollides(w, d); }
  }

  lemma HeldCollides(w: Workspace, d: WorkspaceDocument)
    requires !Collides(w.documents, d)
    ensures !Holds(w, d.id) && !HasPath(w.documents, d.path)
  {
    if d.id != 0 {
      forall i | 0 <= i < |w.documents| ensures Ids(w.documents)[i] != d.id { assert w.documents[i] in w.documents; }
    }
  }

  // ---- the rehearsal decides ----

  lemma {:induction false} AddAllMeans(w: Workspace, documents: seq<WorkspaceDocument>)
    requires w.documents == []
    ensures AddAll(w, documents).status == Success <==> Clean(documents)
    ensures AddAll(w, documents).status == Success ==>
              AddAll(w, documents).workspace.documents == documents && AddAll(w, documents).workspace.maximumRecent == w.maximumRecent
  {
    hide Clean, Collides, ValidDocument, DocTypes.Add;
    if documents == [] {
      NothingIsClean();
    } else {
      var n := |documents| - 1;
      AddAllMeans(w, documents[..n]);
      AddsWhen(AddAll(w, documents[..n]).workspace, documents[n]);
      CleanSnoc(documents[..n], documents[n]);
      assert documents == documents[..n] + [documents[n]];
    }
  }

  lemma NothingIsClean()
    ensures Clean([])
  {}

  lemma {:induction false} CheckRecentMeans(w: Workspace, entries: seq<WorkspaceDocument>, k: nat)
    requires k <= |entries| <= w.maximumRecent && Clean(w.documents + entries[..k])
    ensures CheckRecent(w, entries, k) == Success <==> Clean(w.documents + entries)
    decreases |entries| - k
  {
    hide Clean, Collides, ValidDocument;
    if k == |entries| {
      assert entries[..k] == entries;
    } else {
      var d := entries[k];
      CleanNext(w.documents, entries, k);
      RecentCollides(w, entries[..k], entries[..k], d);
      if ValidDocument(d) && !Collides(w.documents + entries[..k], d) {
        CheckRecentMeans(w, entries, k + 1);
      } else if Clean(w.documents + entries) {
        CleanPrefix(w.documents, entries, k + 1);
        assert false;
      }
    }
  }

  // The tests CheckRecent makes of an entry against the open documents and the entries kept so far.
  lemma RecentCollides(w: Workspace, before: seq<WorkspaceDocument>, kept: seq<WorkspaceDocument>, d: WorkspaceDocument)
    requires forall x :: x in kept ==> x in before
    ensures !Collides(w.documents + before, d) ==>
              !Holds(w, d.id) && !HasPath(w.documents, d.path) && !(exists x :: x in kept && (x.id == d.id || SamePath(x.path, d.path)))
    ensures (kept == before && ValidDocument(d) && !Holds(w, d.id) && !HasPath(w.documents, d.path) &&
             !(exists x :: x in kept && (x.id == d.id || SamePath(x.path, d.path)))) ==> !Collides(w.documents + before, d)
  {
    if !Collides(w.documents + before, d) {
      CollidesAmongMore(w.documents, w.documents + before, d);
      HeldCollides(w, d);
    }
    if ValidDocument(d) && !Holds(w, d.id) && !HasPath(w.documents, d.path) { NoCollision(w, d); }
  }

  lemma {:induction false} CheckRecentSucceeds(w: Workspace, entries: seq<WorkspaceDocument>, k: nat)
    requires k <= |entries| && Clean(w.documents + entries)
    ensures CheckRecent(w, entries, k) == Success
    decreases |entries| - k
  {
    hide Clean, Collides, ValidDocument, SamePath, HasPath;
    if k == |entries| {
    } else {
      CleanPrefix(w.documents, entries, k + 1);
      CleanNext(w.documents, entries, k);
      RecentCollides(w, entries[..k], Truncate(entries[..k], w.maximumRecent), entries[k]);
      CheckRecentSucceeds(w, entries, k + 1);
    }
  }

  // Restoring is attempted exactly when everything in the session is valid and no two entries, open or recent, share
  // an id or a path.
  lemma RehearsedMeans(session: WorkspaceSession)
    ensures Rehearsed(session) <==> Clean(Metadata(session.documents) + Metadata(session.recentlyClosed))
  {
    hide Clean, AddAll, CheckRecent, Metadata;
    var documents, recent := Metadata(session.documents), Metadata(session.recentlyClosed);
    var probe := Workspace(session.workspace, |session.recentlyClosed|, [], [], None, 0);
    AddAllMeans(probe, documents);
    assert documents + [] == documents && recent[..0] == [];
    if Clean(documents + recent) { CleanPrefix(documents, recent, 0); }
    if AddAll(probe, documents).status == Success {
      assert |recent| == |session.recentlyClosed| by { MetadataSize(session.recentlyClosed); }
      CheckRecentMeans(AddAll(probe, documents).workspace, recent, 0);
    }
  }

  lemma MetadataSize(items: seq<SessionDocument>)
    ensures |Metadata(items)| == |items|
  {}

  // ---- callbacks that leave the workspace alone ----

  predicate Quiet(a: Assessment) { a.validateOps == [] && a.restoreOps == [] }

  predicate Accepts(a: Assessment, closed: bool) { a.answer == Some(Restore) && (closed || a.accepted == Some(true)) }

  // The entries the callbacks accept, in order.
  function Kept(documents: seq<WorkspaceDocument>, first: nat, assess: Assessor, closed: bool): seq<WorkspaceDocument> {
    if documents == [] then []
    else
      var n := |documents| - 1;
      Kept(documents[..n], first, assess, closed) + (if Accepts(assess(first + n), closed) then [documents[n]] else [])
  }

  lemma QuietJudge(w: Workspace, a: Assessment, closed: bool)
    requires Quiet(a)
    ensures Judge(w, a, closed).0 == w && (Judge(w, a, closed).1 == Restore <==> Accepts(a, closed))
  {}

  lemma {:induction false} KeptAmong(documents: seq<WorkspaceDocument>, first: nat, assess: Assessor, closed: bool)
    ensures forall d :: d in Kept(documents, first, assess, closed) ==> d in documents
  {
    if documents == [] {
    } else {
      KeptAmong(documents[..|documents| - 1], first, assess, closed);
    }
  }

  lemma {:induction false} KeptClean(base: seq<WorkspaceDocument>, documents: seq<WorkspaceDocument>, first: nat, assess: Assessor, closed: bool)
    requires Clean(base + documents)
    ensures Clean(base + Kept(documents, first, assess, closed))
    decreases |documents|
  {
    hide Clean, Collides, ValidDocument, Accepts;
    if documents == [] {
      assert base + [] == base;
    } else {
      var n := |documents| - 1;
      var init := documents[..n];
      var kept := Kept(init, first, assess, closed);
      assert base + init + [documents[n]] == base + documents;
      CleanSnoc(base + init, documents[n]);
      KeptClean(base, init, first, assess, closed);
      KeptAmong(init, first, assess, closed);
      CollidesAmongMore(base + kept, base + init, documents[n]);
      CleanSnoc(base + kept, documents[n]);
      assert base + (kept + [documents[n]]) == base + kept + [documents[n]] && base + (kept + []) == base + kept;
    }
  }

  lemma {:induction false} KeptFrontClean(documents: seq<WorkspaceDocument>, rest: seq<WorkspaceDocument>, first: nat, assess: Assessor, closed: bool)
    requires Clean(documents + rest)
    ensures Clean(Kept(documents, first, assess, closed) + rest)
    decreases |rest|
  {
    hide Clean, Collides, ValidDocument, Kept;
    var kept := Kept(documents, first, assess, closed);
    if rest == [] {
      assert documents + rest == [] + documents && kept + rest == [] + kept;
      KeptClean([], documents, first, assess, closed);
    } else {
      var n := |rest| - 1;
      assert documents + rest == documents + rest[..n] + [rest[n]] && kept + rest == kept + rest[..n] + [rest[n]];
      CleanSnoc(documents + rest[..n], rest[n]);
      KeptFrontClean(documents, rest[..n], first, assess, closed);
      KeptAmong(documents, first, assess, closed);
      CollidesAmongMore(kept + rest[..n], documents + rest[..n], rest[n]);
      CleanSnoc(kept + rest[..n], rest[n]);
    }
  }

  ghost predicate AllQuiet(assess: Assessor) { forall k: nat :: Quiet(assess(k)) }

  lemma {:induction false} OpenQuietly(s: Restoring, documents: seq<WorkspaceDocument>, assess: Assessor)
    requires s.workspace.documents == [] && s.workspace.active == None && Clean(documents) && AllQuiet(assess)
    ensures var r := OpenAll(s, documents, assess);
            var kept := Kept(documents, 0, assess, false);
            && r.workspace == s.workspace.(documents := kept, active := if kept == [] then None else Some(kept[0].id),
                                           revision := s.workspace.revision + |kept|)
            && r.restored == s.restored + |kept| && r.recent == s.recent
    decreases |documents|
  {
    hide Clean, Collides, ValidDocument, Accepts, Judge, DocTypes.Add, Quiet;
    if documents == [] {
    } else {
      var n := |documents| - 1;
      var init := documents[..n];
      CleanSnoc(init, documents[n]);
      assert documents == init + [documents[n]];
      OpenQuietly(s, init, assess);
      var before := OpenAll(s, init, assess);
      QuietJudge(before.workspace, assess(n), false);
      KeptAmong(init, 0, assess, false);
      CollidesAmongMore(before.workspace.documents, init, documents[n]);
      AddsWhen(before.workspace, documents[n]);
    }
  }

  lemma {:induction false} RecallQuietly(s: Restoring, documents: seq<WorkspaceDocument>, first: nat, assess: Assessor)
    requires AllQuiet(assess)
    ensures var r := RecallAll(s, documents, first, assess);
            r.workspace == s.workspace && r.recent == s.recent + Kept(documents, first, assess, true) && r.restored == s.restored
  {
    hide Accepts, Judge, Quiet;
    if documents == [] {
    } else {
      var n := |documents| - 1;
      RecallQuietly(s, documents[..n], first, assess);
      QuietJudge(s.workspace, assess(first + n), true);
    }
  }

  // What a restored workspace holds: the accepted documents in order, the saved active one if it was accepted, else the
  // first, and the accepted recents as far as there is room.
  ghost predicate Holding(v: Workspace, open: seq<WorkspaceDocument>, recent: seq<WorkspaceDocument>, active: Option<nat>) {
    && v.documents == open
    && v.recent == Truncate(recent, v.maximumRecent)
    && v.active == if active.Some? && active.value != 0 && active.value in Ids(open) then active
                   else if open == [] then None else Some(open[0].id)
  }

  // Callbacks that change nothing: exactly what they accept is restored, and nothing else is lost.
  lemma RestoreQuietly(w: Workspace, session: WorkspaceSession, assess: Assessor)
    requires w.id == session.workspace != 0 && w.documents == [] && w.recent == [] && w.active == None
    requires Rehearsed(session) && AllQuiet(assess)
    ensures var (r, v) := RestoreSession(w, session, Some(assess));
            var open := Kept(Metadata(session.documents), 0, assess, false);
            var recent := Kept(Metadata(session.recentlyClosed), |session.documents|, assess, true);
            && r.status in {Complete, PartialSuccess} && r.restoredDocuments == |open| && r.restoredRecent == |recent|
            && Holding(v, open, recent, session.active) && v.id == w.id && v.maximumRecent == w.maximumRecent
  {
    hide Rehearsed, Clean, OpenAll, RecallAll, Kept, AllQuiet, CheckRecent, Ids, Metadata;
    var documents, closed := Metadata(session.documents), Metadata(session.recentlyClosed);
    MetadataSize(session.documents);
    RehearsedMeans(session);
    var open := Kept(documents, 0, assess, false);
    var recent := Kept(closed, |documents|, assess, true);
    assert documents + [] == documents && closed[..0] == [];
    CleanPrefix(documents, closed, 0);
    var start := Restoring(w, 0, [], []);
    OpenQuietly(start, documents, assess);
    var first := OpenAll(start, documents, assess);
    var active := first.(workspace := ActivateSaved(first.workspace, session.active));
    RecallQuietly(active, closed, |documents|, assess);
    KeptFrontClean(documents, closed, 0, assess, false);
    KeptClean(open, closed, |documents|, assess, true);
    CheckRecentSucceeds(active.workspace, recent, 0);
    assert [] + recent == recent;
  }

  // ---- captured and restored ----

  // Callbacks that accept everything and change nothing.
  ghost predicate AcceptsAll(assess: Assessor) {
    forall k: nat :: assess(k) == Assessment([], Some(Restore), [], Some(true))
  }

  lemma {:induction false} AllKept(documents: seq<WorkspaceDocument>, first: nat, assess: Assessor, closed: bool)
    requires AcceptsAll(assess)
    ensures Kept(documents, first, assess, closed) == documents
  {
    if documents == [] {
    } else {
      var n := |documents| - 1;
      AllKept(documents[..n], first, assess, closed);
      assert Accepts(assess(first + n), closed);
      assert documents == documents[..n] + [documents[n]];
    }
  }

  lemma ActiveComesBack(w: Workspace)
    requires Consistent(w)
    ensures w.active.Some? ==> w.active.value != 0 && w.active.value in Ids(w.documents)
    ensures w.active.None? ==> w.documents == []
  {
    if w.active.Some? {
      var i :| 0 <= i < |w.documents| && Ids(w.documents)[i] == w.active.value;
      assert w.documents[i] in w.documents;
    }
  }

  // Capturing a workspace and restoring it into an empty one of the same id: documents, order and active document come
  // back, and as many recents as there is room for. It works exactly when no two of the documents, open or recent, share
  // an id or a path; otherwise it is refused and the target is left alone.
  lemma RestoreCaptured(w: Workspace, target: Workspace, assess: Assessor)
    requires Consistent(w) && Consistent(target) && AcceptsAll(assess)
    requires target.id == w.id && target.documents == [] && target.recent == []
    ensures var (r, v) := RestoreSession(target, Capture(w), Some(assess));
            if DistinctDocuments(w.documents + w.recent) then
              && r.status == Complete && r.issues == []
              && v.documents == w.documents && v.active == w.active && v.recent == Truncate(w.recent, target.maximumRecent)
            else
              r.status == BadArgument && v == target
  {
    hide Kept, Rehearsed, RestoreAll, DistinctDocuments, Ids, ValidDocument;
    var session := Capture(w);
    MetadataSize(session.documents);
    MetadataSize(session.recentlyClosed);
    RehearsedMeans(session);
    assert Clean(w.documents + w.recent) <==> DistinctDocuments(w.documents + w.recent);
    if Rehearsed(session) {
      assert AllQuiet(assess);
      ActiveComesBack(target);
      RestoreQuietly(target, session, assess);
      AllKept(w.documents, 0, assess, false);
      AllKept(w.recent, |w.documents|, assess, true);
      RestoreAccountsForAll(target, session, Some(assess));
      ActiveComesBack(w);
    }
  }

  // Opening a document, closing it and adding it again, not through the history: it is open and recent at once, and the
  // capture of this workspace is refused.
  lemma ReachableButRefused(d: WorkspaceDocument, target: Workspace, assess: Assessor)
    requires ValidDocument(d) && Consistent(target) && AcceptsAll(assess)
    requires target.id == 1 && target.documents == [] && target.recent == []
    ensures var w := Run(Workspace(1, 1, [], [], None, 0), [AddOp(d, None), CloseOp(d.id, true), AddOp(d, None)]);
            && Consistent(w) && w.documents == [d] && w.recent == [d]
            && RestoreSession(target, Capture(w), Some(assess)).0.status == BadArgument
  {
    hide ValidDocument, Run, RestoreSession, AcceptsAll, Capture;
    var w0 := Workspace(1, 1, [], [], None, 0);
    var ops := [AddOp(d, None), CloseOp(d.id, true), AddOp(d, None)];
    OpenedTwice(w0, d);
    var w := Run(w0, ops);
    RunKeepsConsistent(w0, ops);
    assert !DistinctDocuments(w.documents + w.recent) by {
      var both := w.documents + w.recent;
      assert both[0].id == both[1].id;
    }
    RestoreCaptured(w, target, assess);
  }

  lemma OpenedTwice(w: Workspace, d: WorkspaceDocument)
    requires ValidDocument(d) && w == Workspace(1, 1, [], [], None, 0)
    ensures var v := Run(w, [AddOp(d, None), CloseOp(d.id, true), AddOp(d, None)]);
            v.id == 1 && v.documents == [d] && v.recent == [d]
  {
    var add, close := AddOp(d, None), CloseOp(d.id, true);
    var w1 := Add(w, d, None).workspace;
    assert Ids(w.documents) == [] && w1.documents == [d];
    DistinctIndex(w1.documents, 0);
    var w2 := Close(w1, d.id, true).workspace;
    assert w2.recent == [d];
    assert w2.documents == [] && Ids(w2.documents) == [];
    assert Add(w2, d, None).workspace.documents == [d];
    assert [add] + [close] + [add] == [add, close, add];
    RunConcat(w, [add] + [close], [add]);
    RunConcat(w, [add], [close]);
    RunOne(w, add);
    RunOne(w1, close);
    RunOne(w2, add);
  }

  // ---- through the file ----

  // What a workspace holds that consistency does not speak of.
  ghost predicate Representable(w: Workspace, limits: Limits, codec: RealCodec) {
    && Fits(w.id) && |w.documents| + |w.recent| <= limits.maximumDocumentsPerWorkspace && Fits(|w.documents| + |w.recent|)
    && limits.maximumWorkspaces >= 1
    && forall d :: d in w.documents || d in w.recent ==> DocumentFits(SessionDocument(d, None), limits, codec)
  }

  lemma CaptureFits(w: Workspace, limits: Limits, codec: RealCodec)
    requires Consistent(w) && Representable(w, limits, codec) && DistinctDocuments(w.documents + w.recent)
    ensures var session := DocumentSession(SCHEMA_VERSION, [Capture(w)]); SessionKept(session, limits, codec) && TextsOneLine(session)
  {
    hide DocumentKept, ItemOneLine, Ids, ValidDocument;
    var s := Capture(w);
    var all := Entries(s);
    EntriesCaptured(w);
    forall item | item in all ensures DocumentKept(item, limits, codec) && ItemOneLine(item) {
      var i :| 0 <= i < |all| && all[i] == item;
      assert (w.documents + w.recent)[i] in w.documents + w.recent;
    }
    assert DistinctEntries(all);
    if w.active.Some? {
      ActiveComesBack(w);
      ActiveEntry(w);
      ActiveFits(w, limits, codec);
    }
    assert WorkspaceKept(s, limits, codec);
    assert forall item :: item in s.documents || item in s.recentlyClosed ==> item in all;
  }

  lemma EntriesCaptured(w: Workspace)
    ensures var all := Entries(Capture(w));
            |all| == |w.documents| + |w.recent| &&
            forall i :: 0 <= i < |all| ==> all[i] == SessionDocument((w.documents + w.recent)[i], None)
  {
    assert forall i :: 0 <= i < |w.documents| ==> Unstamped(w.documents)[i].metadata == Metadata(Unstamped(w.documents))[i];
  }

  lemma ActiveEntry(w: Workspace)
    requires w.active.Some? && w.active.value in Ids(w.documents)
    ensures ActiveIsOpen(Capture(w))
  {
    var i :| 0 <= i < |w.documents| && Ids(w.documents)[i] == w.active.value;
    assert Unstamped(w.documents)[i].metadata == Metadata(Unstamped(w.documents))[i];
    assert Unstamped(w.documents)[i] in Capture(w).documents;
  }

  lemma ActiveFits(w: Workspace, limits: Limits, codec: RealCodec)
    requires w.active.Some? && w.active.value in Ids(w.documents) && w.active.value != 0 && Representable(w, limits, codec)
    ensures FitsId(w.active)
  {
    hide Acceptable;
    var i :| 0 <= i < |w.documents| && Ids(w.documents)[i] == w.active.value;
    assert w.documents[i] in w.documents;
    assert DocumentFits(SessionDocument(w.documents[i], None), limits, codec);
  }

  // Capture, serialize, parse, restore: the same documents, order, active document and recents.
  lemma WorkspaceSurvivesTheFile(w: Workspace, target: Workspace, assess: Assessor, limits: Limits, codec: RealCodec)
    requires Consistent(w) && Representable(w, limits, codec) && DistinctDocuments(w.documents + w.recent)
    requires SizeOk(Unlines(SessionLines(DocumentSession(SCHEMA_VERSION, [Capture(w)]), codec)), limits.maximumBytes)
    requires Consistent(target) && target.id == w.id && target.documents == [] && target.recent == []
    requires target.maximumRecent >= |w.recent| && AcceptsAll(assess)
    ensures var read := ReadSession(Unlines(SessionLines(DocumentSession(SCHEMA_VERSION, [Capture(w)]), codec)), limits, codec);
            && read.Done? && |read.value.workspaces| == 1
            && var (r, v) := RestoreSession(target, read.value.workspaces[0], Some(assess));
               && r.status == Complete
               && v.documents == w.documents && v.active == w.active && v.recent == w.recent
  {
    hide Representable, SessionKept, TextsOneLine, ReadSession, RestoreSession, SizeOk, SessionLines, Consistent, DistinctDocuments, AcceptsAll;
    CaptureFits(w, limits, codec);
    var session := DocumentSession(SCHEMA_VERSION, [Capture(w)]);
    SessionRoundTrip(session, limits, codec);
    assert NumbersFaithful(session.workspaces, codec) by { KeptNumbers(session, limits, codec); }
    SessionWellFormed(session, codec);
    SizedIsWellFormed(Unlines(SessionLines(session, codec)), limits.maximumBytes);
    RestoreCaptured(w, target, assess);
  }

  lemma SizedIsWellFormed(text: string, maximumBytes: nat)
    requires SizeOk(text, maximumBytes)
    ensures WellFormed(text) && !TooLong(text)
  {}
}
