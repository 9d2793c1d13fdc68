// Laws of a document workspace over single calls and whole runs.
module DocLaws {
  import opened Basics
  import opened DocTypes

  // ---- lists of documents ----

  lemma IdsAt(documents: seq<WorkspaceDocument>, d: WorkspaceDocument)
    requires d in documents
    ensures d.id in Ids(documents)
  {
    var i :| 0 <= i < |documents| && documents[i] == d;
    assert Ids(documents)[i] == d.id;
  }

  lemma IdInIds(documents: seq<WorkspaceDocument>, id: nat)
    requires id in Ids(documents)
    ensures exists d :: d in documents && d.id == id
  {
    var i :| 0 <= i < |documents| && Ids(documents)[i] == id;
    assert documents[i] in documents && documents[i].id == id;
  }

  lemma DistinctIndex(documents: seq<WorkspaceDocument>, i: nat)
    requires DistinctDocuments(documents) && i < |documents|
    ensures IndexOf(Ids(documents), documents[i].id) == Some(i)
  {
    IndexOfUnique(Ids(documents), i);
  }

  lemma SamePathIsSymmetric(a: string, b: string)
    ensures SamePath(a, b) <==> SamePath(b, a)
  {}

  predicate Collides(documents: seq<WorkspaceDocument>, d: WorkspaceDocument) {
    exists x :: x in documents && (x.id == d.id || SamePath(x.path, d.path))
  }

  lemma InsertKeepsDistinct(documents: seq<WorkspaceDocument>, i: nat, d: WorkspaceDocument)
    requires DistinctDocuments(documents) && i <= |documents| && !Collides(documents, d)
    ensures DistinctDocuments(InsertDocument(documents, i, d))
    ensures forall x :: x in InsertDocument(documents, i, d) <==> x in documents || x == d
  {
    var r := InsertDocument(documents, i, d);
    hide SamePath, InsertDocument;
    InsertMembership(documents, i, d);
    InsertAtEach(documents, i, d);
    forall k | 0 <= k < |documents|
      ensures documents[k].id != d.id && !SamePath(documents[k].path, d.path) && !SamePath(d.path, documents[k].path)
    {
      assert documents[k] in documents;
      SamePathIsSymmetric(documents[k].path, d.path);
    }
  }

  lemma InsertAtEach(documents: seq<WorkspaceDocument>, i: nat, d: WorkspaceDocument)
    requires i <= |documents|
    ensures var r := InsertDocument(documents, i, d);
            |r| == |documents| + 1 &&
            forall k :: 0 <= k < |r| ==> r[k] == if k < i then documents[k] else if k == i then d else documents[k - 1]
  {}

  lemma InsertMembership(documents: seq<WorkspaceDocument>, i: nat, d: WorkspaceDocument)
    requires i <= |documents|
    ensures forall x :: x in InsertDocument(documents, i, d) <==> x in documents || x == d
  {
    assert documents == documents[..i] + documents[i..];
  }

  lemma RemoveKeepsDistinct(documents: seq<WorkspaceDocument>, i: nat)
    requires DistinctDocuments(documents) && i < |documents|
    ensures DistinctDocuments(RemoveDocument(documents, i))
    ensures forall x :: x in RemoveDocument(documents, i) <==> x in documents && x.id != documents[i].id
  {
    var r := RemoveDocument(documents, i);
    assert forall k :: 0 <= k < |r| ==> r[k] == if k < i then documents[k] else documents[k + 1];
    forall x | x in documents && x.id != documents[i].id ensures x in r {
      var k :| 0 <= k < |documents| && documents[k] == x;
      assert r[if k < i then k else k - 1] == x;
    }
  }

  lemma EditKeepsDistinct(documents: seq<WorkspaceDocument>, i: nat, d: WorkspaceDocument)
    requires DistinctDocuments(documents) && i < |documents| && d.id == documents[i].id
    requires d.path == documents[i].path || forall x :: x in documents && x.id != d.id ==> !SamePath(x.path, d.path)
    ensures DistinctDocuments(documents[i := d])
    ensures Ids(documents[i := d]) == Ids(documents)
  {
    forall k | 0 <= k < |documents| && k != i ensures !SamePath(documents[k].path, d.path) {
      assert documents[k] in documents;
    }
  }

  lemma PrefixKeepsDistinct(documents: seq<WorkspaceDocument>, n: nat)
    requires DistinctDocuments(documents) && n <= |documents|
    ensures DistinctDocuments(documents[..n])
  {}

  lemma {:induction false} ForgetKeepsDistinct(recent: seq<WorkspaceDocument>, d: WorkspaceDocument)
    requires DistinctDocuments(recent)
    ensures DistinctDocuments(Forget(recent, d))
  {
    if recent == [] {
    } else {
      var rest := Forget(recent[1..], d);
      ForgetKeepsDistinct(recent[1..], d);
      HeadDiffers(recent, rest);
      hide SamePath, DistinctDocuments;
      forall x | x in rest ensures x.id != recent[0].id && !SamePath(x.path, recent[0].path) {
        SamePathIsSymmetric(recent[0].path, x.path);
      }
      PutFirstKeepsDistinct(rest, recent[0]);
    }
  }

  lemma HeadDiffers(documents: seq<WorkspaceDocument>, rest: seq<WorkspaceDocument>)
    requires DistinctDocuments(documents) && documents != [] && forall x :: x in rest ==> x in documents[1..]
    ensures forall x :: x in rest ==> x.id != documents[0].id && !SamePath(documents[0].path, x.path)
  {
    forall x | x in rest ensures x.id != documents[0].id && !SamePath(documents[0].path, x.path) {
      var k :| 0 <= k < |documents[1..]| && documents[1..][k] == x;
      assert documents[k + 1] == x;
    }
  }

  lemma PutFirstKeepsDistinct(rest: seq<WorkspaceDocument>, d: WorkspaceDocument)
    requires DistinctDocuments(rest) && forall x :: x in rest ==> x.id != d.id && !SamePath(x.path, d.path)
    ensures DistinctDocuments([d] + rest)
  {
    assert forall k :: 0 <= k < |rest| ==> rest[k] in rest;
    hide SamePath;
    forall k | 0 <= k < |rest| ensures !SamePath(d.path, rest[k].path) { SamePathIsSymmetric(rest[k].path, d.path); }
  }

  lemma RememberKeepsDistinct(recent: seq<WorkspaceDocument>, maximum: nat, d: WorkspaceDocument)
    requires DistinctDocuments(recent) && |recent| <= maximum
    ensures var r := Remember(recent, maximum, d);
            DistinctDocuments(r) && |r| <= maximum && forall x :: x in r ==> x in recent || x == d
  {
    hide DistinctDocuments, Forget, SamePath;
    if maximum > 0 {
      var rest := Forget(recent, d);
      ForgetKeepsDistinct(recent, d);
      PutFirstKeepsDistinct(rest, d);
      if |[d] + rest| > maximum { PrefixKeepsDistinct([d] + rest, maximum); }
    }
  }

  lemma {:induction false} SurvivorsConcat(a: seq<WorkspaceDocument>, b: seq<WorkspaceDocument>, closing: seq<nat>)
    ensures Survivors(a + b, closing) == Survivors(a, closing) + Survivors(b, closing)
  {
    if a == [] {
      assert a + b == b;
    } else {
      assert (a + b)[1..] == a[1..] + b;
      SurvivorsConcat(a[1..], b, closing);
    }
  }

  lemma {:induction false} SurvivorsKeepDistinct(documents: seq<WorkspaceDocument>, closing: seq<nat>)
    requires DistinctDocuments(documents)
    ensures DistinctDocuments(Survivors(documents, closing))
  {
    if documents == [] {
    } else {
      var rest := Survivors(documents[1..], closing);
      SurvivorsKeepDistinct(documents[1..], closing);
      HeadDiffers(documents, rest);
      assert forall k :: 0 <= k < |rest| ==> rest[k] in rest;
    }
  }

  // ---- every call keeps a workspace consistent ----

  lemma NoCollision(w: Workspace, d: WorkspaceDocument)
    requires Add(w, d, None).status == Success || (ValidDocument(d) && !Holds(w, d.id) && !HasPath(w.documents, d.path))
    ensures !Collides(w.documents, d)
  {
    if x :| x in w.documents && (x.id == d.id || SamePath(x.path, d.path)) {
      IdsAt(w.documents, x);
    }
  }

  lemma AddKeeps(w: Workspace, d: WorkspaceDocument, index: Option<nat>)
    requires Consistent(w)
    ensures Consistent(Add(w, d, index).workspace)
  {
    var r := Add(w, d, index);
    if r.status == Success {
      var at := if index.Some? then index.value else |w.documents|;
      NoCollision(w, d);
      hide Collides, DistinctDocuments, SamePath;
      InsertKeepsDistinct(w.documents, at, d);
      IdsAt(r.workspace.documents, d);
      if w.active.Some? {
        IdInIds(w.documents, w.active.value);
        var x :| x in w.documents && x.id == w.active.value;
        IdsAt(r.workspace.documents, x);
      }
    }
  }

  lemma CloseActive(w: Workspace, id: nat, remember: bool)
    requires Consistent(w) && Close(w, id, remember).status == Success
    ensures var v := Close(w, id, remember).workspace;
            (v.active.None? <==> v.documents == []) && (v.active.Some? ==> v.active.value in Ids(v.documents))
  {
    hide Remember, SamePath;
    var i := FindIndex(w, id).value;
    var rest := RemoveDocument(w.documents, i);
    RemoveKeepsDistinct(w.documents, i);
    hide DistinctDocuments, RemoveDocument, Ids;
    if w.active != Some(id) && w.active.Some? {
      IdInIds(w.documents, w.active.value);
      var x :| x in w.documents && x.id == w.active.value;
      IdsAt(rest, x);
    } else if rest != [] {
      IdsAt(rest, rest[if i < |rest| then i else |rest| - 1]);
    }
  }

  lemma CloseKeeps(w: Workspace, id: nat, remember: bool)
    requires Consistent(w)
    ensures Consistent(Close(w, id, remember).workspace)
  {
    var r := Close(w, id, remember);
    if r.status == Success {
      CloseActive(w, id, remember);
      var i := FindIndex(w, id).value;
      assert w.documents[i] in w.documents;
      hide DistinctDocuments, Remember, SamePath, Ids, RemoveDocument;
      RemoveKeepsDistinct(w.documents, i);
      RememberKeepsDistinct(w.recent, w.maximumRecent, w.documents[i]);
    }
  }

  lemma HeirSurvives(documents: seq<WorkspaceDocument>, i: nat, closing: seq<nat>)
    requires i <= |documents|
    ensures Heir(documents, i, closing).Some? ==> Heir(documents, i, closing).value in Ids(Survivors(documents, closing))
    ensures Heir(documents, i, closing).None? <==> Survivors(documents, closing) == []
  {
    hide Survivors;
    assert documents == documents[..i] + documents[i..];
    SurvivorsConcat(documents[..i], documents[i..], closing);
    var left, right := Survivors(documents[..i], closing), Survivors(documents[i..], closing);
    var all := Survivors(documents, closing);
    if right != [] {
      IdsAt(left + right, right[0]);
    } else if left != [] {
      IdsAt(left + right, left[|left| - 1]);
    }
  }

  lemma CloseManyKeeps(w: Workspace, ids: seq<nat>)
    requires Consistent(w)
    ensures Consistent(CloseMany(w, ids).workspace)
  {
    var r := CloseMany(w, ids);
    if r.status == Success {
      hide DistinctDocuments, Survivors, Heir;
      SurvivorsKeepDistinct(w.documents, ids);
      SurvivorsFacts(w, ids);
    }
  }

  lemma SurvivorsFacts(w: Workspace, ids: seq<nat>)
    requires Consistent(w)
    ensures var rest, active := Survivors(w.documents, ids), NextActive(w, ids);
            && (forall d :: d in rest ==> d in w.documents)
            && (active.None? <==> rest == [])
            && (active.Some? ==> active.value in Ids(rest))
  {
    hide DistinctDocuments, Heir;
    var rest := Survivors(w.documents, ids);
    if w.active.Some? {
      IdInIds(w.documents, w.active.value);
      var x :| x in w.documents && x.id == w.active.value;
      if w.active.value !in ids {
        assert x in rest;
        IdsAt(rest, x);
      } else {
        HeirSurvives(w.documents, if FindIndex(w, w.active.value).Some? then FindIndex(w, w.active.value).value else 0, ids);
      }
    }
  }

  lemma RestDiffers(documents: seq<WorkspaceDocument>, i: nat)
    requires DistinctDocuments(documents) && i < |documents|
    ensures !Collides(RemoveDocument(documents, i), documents[i])
  {
    hide SamePath;
    var rest := RemoveDocument(documents, i);
    forall x | x in rest ensures x.id != documents[i].id && !SamePath(x.path, documents[i].path) {
      var k :| 0 <= k < |rest| && rest[k] == x;
      assert rest[k] == documents[if k < i then k else k + 1];
      SamePathIsSymmetric(x.path, documents[i].path);
    }
  }

  lemma {:induction false} MoveKeeps(w: Workspace, id: nat, index: nat)
    requires Consistent(w)
    ensures Consistent(Move(w, id, index).workspace)
  {
    hide DistinctDocuments, Collides, SamePath, ValidDocument;
    var r := Move(w, id, index);
    if r.workspace != w {
      var i := FindIndex(w, id).value;
      assert w.documents[i] in w.documents;
      RestDiffers(w.documents, i);
      RemoveKeepsDistinct(w.documents, i);
      InsertKeepsDistinct(RemoveDocument(w.documents, i), index, w.documents[i]);
      SameMembersSameIds(w.documents, r.workspace.documents);
    }
  }

  lemma SameMembersSameIds(a: seq<WorkspaceDocument>, b: seq<WorkspaceDocument>)
    requires forall x :: x in a ==> exists y :: y in b && y.id == x.id
    ensures forall id :: id in Ids(a) ==> id in Ids(b)
  {
    forall id | id in Ids(a) ensures id in Ids(b) {
      IdInIds(a, id);
      var x :| x in a && x.id == id;
      var y :| y in b && y.id == x.id;
      IdsAt(b, y);
    }
  }

  lemma EditKeeps(w: Workspace, i: nat, d: WorkspaceDocument)
    requires Consistent(w) && i < |w.documents| && d.id == w.documents[i].id && ValidDocument(d)
    requires d.path == w.documents[i].path || forall x :: x in w.documents && x.id != d.id ==> !SamePath(x.path, d.path)
    ensures Consistent(Edit(w, i, d))
  {
    EditKeepsDistinct(w.documents, i, d);
    hide DistinctDocuments, Ids;
  }

  lemma ReopenKeeps(w: Workspace, index: nat)
    requires Consistent(w)
    ensures Consistent(ReopenRecentlyClosed(w, index).workspace)
  {
    if index < |w.recent| {
      var d := w.recent[index].(dirty := false);
      var added := Add(w, d, None);
      AddKeeps(w, d, None);
      if added.status == Success {
        assert d in added.workspace.documents;
        assert added.workspace.recent == w.recent;
        hide DistinctDocuments, Add;
        IdsAt(added.workspace.documents, d);
        RemoveKeepsDistinct(w.recent, index);
      }
    }
  }

  lemma {:induction false} CheckedRecent(w: Workspace, entries: seq<WorkspaceDocument>, k: nat)
    requires k <= |entries| && CheckRecent(w, entries, k) == Success
    requires (forall d :: d in entries[..k] ==> ValidDocument(d)) && DistinctDocuments(Truncate(entries[..k], w.maximumRecent))
    ensures (forall d :: d in entries ==> ValidDocument(d)) && DistinctDocuments(Truncate(entries, w.maximumRecent))
    decreases |entries| - k
  {
    if k == |entries| {
      assert entries[..k] == entries;
    } else {
      var d := entries[k];
      assert entries[..k + 1] == entries[..k] + [d];
      var kept := Truncate(entries[..k], w.maximumRecent);
      if |kept| < w.maximumRecent {
        assert Truncate(entries[..k + 1], w.maximumRecent) == kept + [d];
        assert DistinctDocuments(kept + [d]) by {
          assert forall j :: 0 <= j < |kept| ==> kept[j] in kept;
        }
      } else {
        assert Truncate(entries[..k + 1], w.maximumRecent) == kept;
      }
      CheckedRecent(w, entries, k + 1);
    }
  }

  lemma RestoreRecentKeeps(w: Workspace, entries: seq<WorkspaceDocument>)
    requires Consistent(w)
    ensures Consistent(RestoreRecentlyClosed(w, entries).workspace)
  {
    if CheckRecent(w, entries, 0) == Success {
      CheckedRecent(w, entries, 0);
      hide DistinctDocuments, CheckRecent;
    }
  }

  // Whatever the call and whatever its arguments, a workspace stays consistent.
  lemma CallKeepsConsistent(w: Workspace, op: WorkspaceOp)
    requires Consistent(w)
    ensures Consistent(Call(w, op).workspace)
  {
    hide DistinctDocuments, Add, Close, CloseMany, Move, ReopenRecentlyClosed, RestoreRecentlyClosed, Rename, Edit, Ids;
    match op
    case AddOp(d, index) => AddKeeps(w, d, index);
    case CloseOp(id, remember) => CloseKeeps(w, id, remember);
    case CloseManyOp(ids) => CloseManyKeeps(w, ids);
    case MoveOp(id, to) => MoveKeeps(w, id, to);
    case ActivateOp(id) => ActivateKeeps(w, id);
    case SetDirtyOp(id, dirty) => if i :| FindIndex(w, id) == Some(i) { EditKeepsPath(w, i, w.documents[i].(dirty := dirty)); }
    case SetUndoStateOp(id, canUndo, canRedo) =>
      if i :| FindIndex(w, id) == Some(i) { EditKeepsPath(w, i, w.documents[i].(canUndo := canUndo, canRedo := canRedo)); }
    case SetViewStateOp(id, view) =>
      if i :| FindIndex(w, id) == Some(i) && view.IsValid() { EditKeepsPath(w, i, w.documents[i].(view := view)); }
    case RenameOp(id, title, path) => RenameKeeps(w, id, title, path);
    case ReopenOp(index) => ReopenKeeps(w, index);
    case RestoreRecentOp(entries) => RestoreRecentKeeps(w, entries);
    case ClearRecentOp => ClearKeeps(w);
    case AcceptOp(plan) => AddKeeps(w, plan.document, plan.destinationIndex);
    case CommitOp(plan) => CloseKeeps(w, plan.document.id, false);
    case RollbackOp(plan) => CloseKeeps(w, plan.document.id, false);
  }

  lemma ActivateKeeps(w: Workspace, id: nat)
    requires Consistent(w)
    ensures Consistent(Activate(w, id).workspace)
  {
    hide DistinctDocuments, Ids;
  }

  lemma ClearKeeps(w: Workspace)
    requires Consistent(w)
    ensures Consistent(ClearRecentlyClosed(w))
  {}

  lemma EditKeepsPath(w: Workspace, i: nat, d: WorkspaceDocument)
    requires Consistent(w) && i < |w.documents|
    requires d == w.documents[i].(dirty := d.dirty, canUndo := d.canUndo, canRedo := d.canRedo, view := d.view)
    requires d.view == w.documents[i].view || d.view.IsValid()
    ensures Consistent(Edit(w, i, d))
  {
    hide DistinctDocuments, Edit;
    assert w.documents[i] in w.documents;
    EditKeeps(w, i, d);
  }

  lemma RenameKeeps(w: Workspace, id: nat, title: string, path: string)
    requires Consistent(w)
    ensures Consistent(Rename(w, id, title, path).workspace)
  {
    hide DistinctDocuments, Edit;
    var r := Rename(w, id, title, path);
    if r.status == Success {
      var i := FindIndex(w, id).value;
      assert w.documents[i] in w.documents;
      EditKeeps(w, i, w.documents[i].(title := title, path := path));
    }
  }

  lemma {:induction false} RunKeepsConsistent(w: Workspace, ops: seq<WorkspaceOp>)
    requires Consistent(w)
    ensures Consistent(Run(w, ops))
  {
    hide Consistent, Call;
    if ops == [] {
    } else {
      RunKeepsConsistent(w, ops[..|ops| - 1]);
      CallKeepsConsistent(Run(w, ops[..|ops| - 1]), ops[|ops| - 1]);
    }
  }

  // ---- revisions ----

  lemma CallRevision(w: Workspace, op: WorkspaceOp)
    ensures var v := Call(w, op).workspace;
            && v.id == w.id && v.maximumRecent == w.maximumRecent
            && v.revision >= w.revision
            && (v.revision == w.revision ==> v == if op.ClearRecentOp? then ClearRecentlyClosed(w) else w)
            && (Call(w, op).status != Success ==> v == w)
  {
    hide Survivors, NextActive, CheckClosing, CheckRecent, Remember, Ids;
  }

  lemma {:induction false} RunConcat(w: Workspace, a: seq<WorkspaceOp>, b: seq<WorkspaceOp>)
    ensures Run(w, a + b) == Run(Run(w, a), b)
  {
    hide Call;
    if b == [] {
      assert a + b == a;
    } else {
      assert (a + b)[..|a + b| - 1] == a + b[..|b| - 1];
      RunConcat(w, a, b[..|b| - 1]);
    }
  }

  // Over any run, an unchanged revision means unchanged documents, order, active id and, unless the history was
  // cleared, unchanged recents: clearing is the one change the revision does not count.
  lemma {:induction false} EqualRevisionEqualState(w: Workspace, ops: seq<WorkspaceOp>)
    ensures Run(w, ops).revision >= w.revision
    ensures Run(w, ops).revision == w.revision ==>
              Run(w, ops) == if ClearRecentOp in ops then ClearRecentlyClosed(w) else w
  {
    hide Call;
    if ops == [] {
    } else {
      var init, last := ops[..|ops| - 1], ops[|ops| - 1];
      assert ops == init + [last];
      EqualRevisionEqualState(w, init);
      CallRevision(Run(w, init), last);
    }
  }

  // So equal revisions identify the whole state exactly when no call cleared a nonempty history in between.
  lemma RevisionIdentifiesState(w: Workspace, ops: seq<WorkspaceOp>)
    requires Run(w, ops).revision == w.revision
    ensures Run(w, ops) == w <==> ClearRecentOp !in ops || w.recent == []
  {
    EqualRevisionEqualState(w, ops);
  }

  // Closing a document and clearing the history: two states, one revision.
  lemma ClearingIsNotCounted(d: WorkspaceDocument)
    requires ValidDocument(d)
    ensures var w := Run(Workspace(1, 1, [], [], None, 0), [AddOp(d, None), CloseOp(d.id, true)]);
            Run(w, [ClearRecentOp]).revision == w.revision && Run(w, [ClearRecentOp]).recent != w.recent
  {
    var w0 := Workspace(1, 1, [], [], None, 0);
    var w1 := Add(w0, d, None).workspace;
    var w2 := Close(w1, d.id, true).workspace;
    OpenedAndClosed(d);
    hide DocTypes.Add, DocTypes.Close, ValidDocument;
    assert [AddOp(d, None)] + [CloseOp(d.id, true)] == [AddOp(d, None), CloseOp(d.id, true)];
    RunConcat(w0, [AddOp(d, None)], [CloseOp(d.id, true)]);
    RunOne(w0, AddOp(d, None));
    RunOne(w1, CloseOp(d.id, true));
    RunOne(w2, ClearRecentOp);
  }

  lemma OpenedAndClosed(d: WorkspaceDocument)
    requires ValidDocument(d)
    ensures var w := Add(Workspace(1, 1, [], [], None, 0), d, None).workspace;
            w.documents == [d] && Close(w, d.id, true).workspace.recent == [d] && Close(w, d.id, true).workspace.documents == []
  {
    var w0 := Workspace(1, 1, [], [], None, 0);
    var w := Add(w0, d, None).workspace;
    assert Ids(w0.documents) == [] && w.documents == [d];
    DistinctIndex(w.documents, 0);
  }

  lemma RunOne(w: Workspace, op: WorkspaceOp)
    ensures Run(w, [op]) == Call(w, op).workspace
  {
    assert [op][..0] == [];
  }
}
