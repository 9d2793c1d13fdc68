// The titles and paths of a document session that is accepted are on one line.
module DocAccepted {
  import opened Basics
  import opened DocTypes
  import opened SessionText
  import opened SessionScanning
  import opened DocSession

  predicate ItemOneLine(item: SessionDocument) { OneLine(item.metadata.title) && OneLine(item.metadata.path) }

  ghost predicate WorkspaceOneLine(w: WorkspaceSession) {
    (forall item :: item in w.documents ==> ItemOneLine(item)) && forall item :: item in w.recentlyClosed ==> ItemOneLine(item)
  }

  ghost predicate TextsOneLine(session: DocumentSession) { forall w :: w in session.workspaces ==> WorkspaceOneLine(w) }

  lemma DocumentOneLine(line: string, tag: char, limits: Limits, codec: RealCodec)
    requires OneLine(line)
    ensures var item := ScanDocumentLine(line, tag, limits, codec); item.Some? ==> ItemOneLine(item.value)
  {
    hide OneLine, ScanUnsigned, ScanQuoted, ScanBool, ScanView, ScanStamp, Finished, Acceptable;
    if |line| >= 2 && DocumentFields(line[2..], codec).Good? {
      TailOneLine(line, 2);
      UnsignedOneLine(line[2..], MAX_U64);
      var s0 := ScanUnsigned(line[2..], MAX_U64).rest;
      ScannedQuoteOneLine(s0);
      ScannedQuoteOneLine(ScanQuoted(s0).rest);
    }
  }

  lemma {:induction false} DocumentsOneLine(lines: seq<string>, k: nat, open: nat, total: nat, w: WorkspaceSession,
                                            limits: Limits, codec: RealCodec)
    requires AllOneLine(lines) && WorkspaceOneLine(w)
    ensures var r := TakeDocuments(lines, k, open, total, w, limits, codec);
            r.Done? ==> AllOneLine(r.rest) && WorkspaceOneLine(r.value)
    decreases total - k
  {
    hide OneLine, AllOneLine, ScanDocumentLine, HasId, ItemOneLine;
    if k >= total || lines == [] {
    } else {
      var tag := if k < open then 'D' else 'R';
      RestOneLine(lines);
      DocumentOneLine(lines[0], tag, limits, codec);
      var item := ScanDocumentLine(lines[0], tag, limits, codec);
      if item.Some? && !HasId(w, item.value.metadata.id) {
        DocumentsOneLine(lines[1..], k + 1, open, total, Appended(w, item.value, k < open), limits, codec);
      }
    }
  }

  lemma OneWorkspaceOneLine(lines: seq<string>, limits: Limits, codec: RealCodec)
    requires AllOneLine(lines)
    ensures var r := TakeWorkspace(lines, limits, codec); r.Done? ==> AllOneLine(r.rest) && WorkspaceOneLine(r.value)
  {
    hide OneLine, AllOneLine, WorkspaceFields, Whole, TakeDocuments, ActiveIsOpen;
    var r := TakeWorkspace(lines, limits, codec);
    if r.Done? {
      RestOneLine(lines);
      var head := Whole(WorkspaceFields(lines[0])).value;
      var start := WorkspaceSession(head.id, head.active, [], []);
      DocumentsOneLine(lines[1..], 0, head.documents, head.documents + head.recent, start, limits, codec);
      var taken := TakeDocuments(lines[1..], 0, head.documents, head.documents + head.recent, start, limits, codec);
      RestOneLine(taken.rest);
    }
  }

  lemma {:induction false} WorkspacesOneLine(lines: seq<string>, n: nat, taken: seq<WorkspaceSession>, limits: Limits, codec: RealCodec)
    requires AllOneLine(lines) && forall w :: w in taken ==> WorkspaceOneLine(w)
    ensures var r := TakeWorkspaces(lines, n, taken, limits, codec);
            r.Done? ==> forall w :: w in r.value ==> WorkspaceOneLine(w)
    decreases n
  {
    hide AllOneLine, TakeWorkspace, WorkspaceOneLine, HasWorkspace;
    if n == 0 {
    } else {
      OneWorkspaceOneLine(lines, limits, codec);
      var r := TakeWorkspace(lines, limits, codec);
      if r.Done? && !HasWorkspace(taken, r.value.workspace) {
        WorkspacesOneLine(r.rest, n - 1, taken + [r.value], limits, codec);
      }
    }
  }

  lemma AcceptedOneLine(text: string, limits: Limits, codec: RealCodec)
    requires ReadSession(text, limits, codec).Done?
    ensures TextsOneLine(ReadSession(text, limits, codec).value)
  {
    hide OneLine, AllOneLine, Lines, Records, TakeWorkspaces, ScanHeader, WorkspaceOneLine, AllBlank;
    LinesOneLine(AfterLine(text));
    RecordsOneLine(Lines(AfterLine(text)));
    FirstOfLines(text);
    var count := ScanHeader(Lines(text)[0]).value.1;
    WorkspacesOneLine(Records(Lines(AfterLine(text))), count, [], limits, codec);
  }
}
