// Closing many documents at once is closing them one at a time, in any order.
module DocClose {
  import opened Basics
  import opened DocTypes
  import opened DocLaws

  function CloseEach(w: Workspace, ids: seq<nat>): Workspace
    decreases |ids|
  {
    if ids == [] then w else CloseEach(Close(w, ids[0], false).workspace, ids[1..])
  }

  ghost predicate Closable(w: Workspace, ids: seq<nat>) {
    ids != [] && NoDuplicates(ids) && forall id :: id in ids ==> Holds(w, id)
  }

  // CloseMany succeeds exactly on nonempty lists of distinct open documents.
  lemma CloseManySucceeds(w: Workspace, ids: seq<nat>)
    ensures CloseMany(w, ids).status == Success <==> Closable(w, ids)
  {
    if ids != [] { CheckClosingMeans(w, ids, 0); }
  }

  lemma {:induction false} CheckClosingMeans(w: Workspace, ids: seq<nat>, k: nat)
    requires k <= |ids|
    ensures CheckClosing(w, ids, k) == Success <==>
            forall i :: k <= i < |ids| ==> ids[i] !in ids[..i] && Holds(w, ids[i])
    decreases |ids| - k
  {
    if k == |ids| {
    } else {
      CheckClosingMeans(w, ids, k + 1);
    }
  }

  lemma {:induction false} SurvivorsSame(documents: seq<WorkspaceDocument>, a: seq<nat>, b: seq<nat>)
    requires forall d :: d in documents ==> (d.id in a <==> d.id in b)
    ensures Survivors(documents, a) == Survivors(documents, b)
  {
    if documents == [] {
    } else {
      assert documents[0] in documents;
      SurvivorsSame(documents[1..], a, b);
    }
  }

  lemma OneClosed(d: WorkspaceDocument, closing: seq<nat>)
    requires d.id in closing
    ensures Survivors([d], closing) == []
  {}

  // documents[j] is the only one with its id.
  ghost predicate OnlyOneAt(documents: seq<WorkspaceDocument>, j: nat)
    requires j < |documents|
  {
    forall i :: 0 <= i < |documents| && i != j ==> documents[i].id != documents[j].id
  }

  lemma SurvivorsElsewhere(part: seq<WorkspaceDocument>, x: nat, rest: seq<nat>)
    requires forall i :: 0 <= i < |part| ==> part[i].id != x
    ensures Survivors(part, [x] + rest) == Survivors(part, rest)
  {
    forall d | d in part ensures d.id in [x] + rest <==> d.id in rest {
      var i :| 0 <= i < |part| && part[i] == d;
    }
    SurvivorsSame(part, [x] + rest, rest);
  }

  // Taking out one closing document and then the rest leaves the same survivors.
  lemma SurvivorsAfterRemoval(documents: seq<WorkspaceDocument>, j: nat, rest: seq<nat>)
    requires j < |documents| && OnlyOneAt(documents, j)
    ensures Survivors(documents, [documents[j].id] + rest) == Survivors(RemoveDocument(documents, j), rest)
  {
    hide Survivors;
    var x := documents[j];
    var closing := [x.id] + rest;
    var before, after := documents[..j], documents[j + 1..];
    OneClosed(x, closing);
    SurvivorsElsewhere(before, x.id, rest);
    SurvivorsElsewhere(after, x.id, rest);
    assert documents == before + [x] + after;
    SurvivorsConcat(before + [x], after, closing);
    SurvivorsConcat(before, [x], closing);
    SurvivorsConcat(before, after, rest);
  }

  lemma SlicesAfterRemoval(documents: seq<WorkspaceDocument>, i: nat, j: nat)
    requires i <= |documents| && j < |documents|
    ensures var fewer := RemoveDocument(documents, j);
            if j < i then fewer[..i - 1] == RemoveDocument(documents[..i], j) && fewer[i - 1..] == documents[i..]
            else fewer[..i] == documents[..i] && fewer[i..] == RemoveDocument(documents[i..], j - i)
  {
    var fewer := RemoveDocument(documents, j);
    if j < i {
      assert fewer[..i - 1] == documents[..j] + documents[j + 1..i];
      assert fewer[i - 1..] == documents[i..];
    } else {
      assert fewer[..i] == documents[..i];
      assert fewer[i..] == documents[i..j] + documents[j + 1..];
    }
  }

  // The heir of position i does not change when another closing document is taken out first.
  lemma HeirAfterRemoval(documents: seq<WorkspaceDocument>, i: nat, j: nat, rest: seq<nat>)
    requires i <= |documents| && j < |documents| && OnlyOneAt(documents, j)
    ensures Heir(documents, i, [documents[j].id] + rest) ==
            Heir(RemoveDocument(documents, j), if j < i then i - 1 else i, rest)
  {
    hide Survivors, RemoveDocument;
    var left, right := documents[..i], documents[i..];
    SlicesAfterRemoval(documents, i, j);
    if j < i {
      assert left[j] == documents[j] && OnlyOneAt(left, j);
      SurvivorsAfterRemoval(left, j, rest);
      SurvivorsElsewhere(right, documents[j].id, rest);
    } else {
      assert right[j - i] == documents[j] && OnlyOneAt(right, j - i);
      SurvivorsAfterRemoval(right, j - i, rest);
      SurvivorsElsewhere(left, documents[j].id, rest);
    }
  }

  // At the end of the list the heir is whoever is the heir of the last document.
  lemma HeirAtEnd(documents: seq<WorkspaceDocument>, closing: seq<nat>)
    requires documents != []
    ensures Heir(documents, |documents|, closing) == Heir(documents, |documents| - 1, closing)
  {
    var n := |documents|;
    assert documents[n..] == [] && documents[..n] == documents;
    assert documents == documents[..n - 1] + documents[n - 1..];
    SurvivorsConcat(documents[..n - 1], documents[n - 1..], closing);
    assert documents[n - 1..] == [documents[n - 1]];
    assert |Survivors(documents[n - 1..], closing)| <= 1;
  }

  lemma HeirOfSurvivor(documents: seq<WorkspaceDocument>, i: nat, closing: seq<nat>)
    requires i < |documents| && documents[i].id !in closing
    ensures Heir(documents, i, closing) == Some(documents[i].id)
  {
    assert documents[i..][0] == documents[i];
  }

  // The active document and list after closing everything in `closing`, however it is done.
  ghost predicate ShutTo(w: Workspace, closing: seq<nat>, v: Workspace) {
    && v.documents == Survivors(w.documents, closing)
    && v.active == NextActive(w, closing)
    && v.recent == w.recent && v.id == w.id && v.maximumRecent == w.maximumRecent
  }

  lemma NextActiveIsHeir(w: Workspace, closing: seq<nat>)
    requires Consistent(w) && w.active.Some?
    ensures FindIndex(w, w.active.value).Some?
    ensures NextActive(w, closing) == Heir(w.documents, FindIndex(w, w.active.value).value, closing)
  {
    hide Heir;
    IdInIds(w.documents, w.active.value);
    var i := FindIndex(w, w.active.value).value;
    if w.active.value !in closing { HeirOfSurvivor(w.documents, i, closing); }
  }

  lemma OthersDiffer(w: Workspace, j: nat)
    requires Consistent(w) && j < |w.documents|
    ensures OnlyOneAt(w.documents, j)
  {}

  lemma CloseOneActive(w: Workspace, x: nat, rest: seq<nat>)
    requires Consistent(w) && Holds(w, x) && w.active.Some?
    ensures NextActive(Close(w, x, false).workspace, rest) == NextActive(w, [x] + rest)
  {
    hide Heir, Survivors, SamePath;
    var j := FindIndex(w, x).value;
    var v := Close(w, x, false).workspace;
    CloseKeeps(w, x, false);
    OthersDiffer(w, j);
    NextActiveIsHeir(w, [x] + rest);
    var i := FindIndex(w, w.active.value).value;
    HeirAfterRemoval(w.documents, i, j, rest);
    if v.documents == [] {
      HeirOfNothing(rest);
    } else {
      NextActiveIsHeir(v, rest);
      var k := if i == j then (if i < |v.documents| then i else |v.documents| - 1) else if j < i then i - 1 else i;
      assert v.documents[k].id == v.active.value;
      DistinctIndex(v.documents, k);
      if i == j && i == |v.documents| { HeirAtEnd(v.documents, rest); }
    }
  }

  lemma HeirOfNothing(closing: seq<nat>)
    ensures Heir([], 0, closing) == None
  {}

  lemma CloseOneShuts(w: Workspace, x: nat, rest: seq<nat>, v: Workspace)
    requires Consistent(w) && Holds(w, x)
    requires ShutTo(Close(w, x, false).workspace, rest, v)
    ensures ShutTo(w, [x] + rest, v)
  {
    hide Survivors, NextActive, Ids, SamePath;
    var j := FindIndex(w, x).value;
    OthersDiffer(w, j);
    SurvivorsAfterRemoval(w.documents, j, rest);
    assert w.active.Some?;
    CloseOneActive(w, x, rest);
  }

  lemma NothingToClose(documents: seq<WorkspaceDocument>)
    ensures Survivors(documents, []) == documents
  {}

  lemma StillHeld(w: Workspace, x: nat, y: nat)
    requires Consistent(w) && Holds(w, x) && Holds(w, y) && x != y
    ensures Holds(Close(w, x, false).workspace, y)
  {
    var j, k := FindIndex(w, x).value, FindIndex(w, y).value;
    var rest := RemoveDocument(w.documents, j);
    RemoveKeepsDistinct(w.documents, j);
    assert w.documents[k] in w.documents && w.documents[k] in rest;
    IdsAt(rest, w.documents[k]);
  }

  lemma {:induction false} CloseEachShuts(w: Workspace, ids: seq<nat>)
    requires Consistent(w) && NoDuplicates(ids) && forall id :: id in ids ==> Holds(w, id)
    ensures ShutTo(w, ids, CloseEach(w, ids))
    decreases |ids|
  {
    hide Survivors, Close, Consistent, Holds;
    if ids == [] {
      NothingToClose(w.documents);
    } else {
      var x, rest := ids[0], ids[1..];
      assert ids == [x] + rest && x in ids;
      var v := Close(w, x, false).workspace;
      CloseKeeps(w, x, false);
      forall id | id in rest ensures Holds(v, id) {
        var i :| 0 <= i < |rest| && rest[i] == id;
        assert ids[i + 1] == id && id in ids;
        StillHeld(w, x, id);
      }
      CloseEachShuts(v, rest);
      hide ShutTo;
      CloseOneShuts(w, x, rest, CloseEach(v, rest));
    }
  }

  lemma ShutToSame(w: Workspace, a: seq<nat>, b: seq<nat>, v: Workspace)
    requires forall x :: x in a <==> x in b
    requires ShutTo(w, a, v)
    ensures ShutTo(w, b, v)
  {
    hide Survivors, FindIndex;
    SurvivorsSame(w.documents, a, b);
    if w.active.Some? {
      var i := if FindIndex(w, w.active.value).Some? then FindIndex(w, w.active.value).value else 0;
      SurvivorsSame(w.documents[i..], a, b);
      SurvivorsSame(w.documents[..i], a, b);
    }
  }

  // Closing many at once, or the same documents one by one in any order: the same documents in the same order, the
  // same active document, the same history.
  lemma CloseManyIsCloseEach(w: Workspace, ids: seq<nat>, order: seq<nat>)
    requires Consistent(w) && Closable(w, ids) && multiset(order) == multiset(ids)
    ensures CloseMany(w, ids).status == Success
    ensures CloseEach(w, order) == CloseMany(w, ids).workspace.(revision := CloseEach(w, order).revision)
  {
    hide CloseEach, Survivors, NextActive, CheckClosing, Consistent, Holds;
    CloseManySucceeds(w, ids);
    NoDuplicatesMultiset(ids);
    NoDuplicatesMultiset(order);
    assert NoDuplicates(order);
    forall x ensures x in order <==> x in ids {
      assert x in multiset(order) <==> x in multiset(ids);
    }
    CloseEachShuts(w, order);
    ShutToSame(w, order, ids, CloseEach(w, order));
  }
}
