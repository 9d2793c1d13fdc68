// A document session read back is the session that was written.
module DocRoundTrip {
  import opened Basics
  import opened DocTypes
  import opened UnitText
  import opened SessionText
  import opened DocSession
  import opened DocEncoding
  import opened DocAccepted

  // ---- what fits the text format ----

  predicate StampFits(stamp: Option<FileStamp>) {
    stamp.Some? ==> var t := stamp.value; Fits(t.size) && Fits(t.lastWriteTime) && Fits(t.fileId) && t.volumeSerial <= MAX_U32
  }

  // What a document must keep to apart from line breaks.
  ghost predicate DocumentKept(item: SessionDocument, limits: Limits, codec: RealCodec) {
    var d := item.metadata;
    && Acceptable(item, limits) && Fits(d.id)
    && Fits(d.view.selectionStart) && Fits(d.view.selectionEnd) && Fits(d.view.firstVisibleUnit)
    && Faithful(codec, d.view.zoom) && StampFits(item.stamp)
  }

  ghost predicate DocumentFits(item: SessionDocument, limits: Limits, codec: RealCodec) {
    DocumentKept(item, limits, codec) && ItemOneLine(item)
  }

  // Every entry of a workspace, open ones first.
  function Entries(w: WorkspaceSession): seq<SessionDocument> { w.documents + w.recentlyClosed }

  predicate DistinctEntries(items: seq<SessionDocument>) {
    forall i, j :: 0 <= i < j < |items| ==> items[i].metadata.id != items[j].metadata.id
  }

  ghost predicate WorkspaceKept(w: WorkspaceSession, limits: Limits, codec: RealCodec) {
    && 0 < w.workspace <= MAX_U64 && FitsId(w.active) && ActiveIsOpen(w)
    && |Entries(w)| <= limits.maximumDocumentsPerWorkspace && Fits(|Entries(w)|)
    && (forall item :: item in Entries(w) ==> DocumentKept(item, limits, codec))
    && DistinctEntries(Entries(w))
  }

  ghost predicate WorkspaceFits(w: WorkspaceSession, limits: Limits, codec: RealCodec) {
    WorkspaceKept(w, limits, codec) && WorkspaceOneLine(w)
  }

  ghost predicate SessionKept(session: DocumentSession, limits: Limits, codec: RealCodec) {
    && session.schemaVersion <= SCHEMA_VERSION
    && |session.workspaces| <= limits.maximumWorkspaces && Fits(|session.workspaces|)
    && (forall w :: w in session.workspaces ==> WorkspaceKept(w, limits, codec))
    && (forall i, j :: 0 <= i < j < |session.workspaces| ==> session.workspaces[i].workspace != session.workspaces[j].workspace)
  }

  lemma EntriesFit(w: WorkspaceSession, limits: Limits, codec: RealCodec)
    requires WorkspaceFits(w, limits, codec)
    ensures forall item :: item in Entries(w) ==> DocumentFits(item, limits, codec)
  {
    hide DocumentKept, ItemOneLine, DistinctEntries;
  }

  // ---- one document ----

  lemma StampReadsBack(stamp: Option<FileStamp>)
    requires StampFits(stamp)
    ensures Tail(StampText(stamp)) && ScanStamp(StampText(stamp)) == Good(stamp, "")
  {
    hide Tail, ScanUnsigned, ScanBool, Field, NatText, BoolText;
    EmptyTail();
    match stamp
    case None => BoolField(false, "");
    case Some(t) =>
      var f3 := Field(NatText(t.volumeSerial), "");
      NatField(t.volumeSerial, "", MAX_U32);
      var f2 := Field(NatText(t.fileId), f3);
      NatField(t.fileId, f3, MAX_U64);
      var f1 := Field(NatText(t.lastWriteTime), f2);
      NatField(t.lastWriteTime, f2, MAX_U64);
      var f0 := Field(NatText(t.size), f1);
      NatField(t.size, f1, MAX_U64);
      BoolField(true, f0);
  }

  lemma ViewReadsBack(v: DocumentViewState, codec: RealCodec, rest: string)
    requires Fits(v.selectionStart) && Fits(v.selectionEnd) && Fits(v.firstVisibleUnit) && Faithful(codec, v.zoom) && Tail(rest)
    ensures Tail(ViewText(v, codec, rest)) && ScanView(ViewText(v, codec, rest), codec) == Good(v, rest)
  {
    hide Tail, ScanUnsigned, Field, NatText, Faithful;
    var f2 := Field(codec.format(v.zoom), rest);
    RealField(codec, v.zoom, rest);
    var f1 := Field(NatText(v.firstVisibleUnit), f2);
    NatField(v.firstVisibleUnit, f2, MAX_U64);
    var f0 := Field(NatText(v.selectionEnd), f1);
    NatField(v.selectionEnd, f1, MAX_U64);
    NatField(v.selectionStart, f0, MAX_U64);
  }

  lemma LeadingBlank(n: nat, rest: string, maximum: nat)
    ensures ScanUnsigned(NatText(n) + rest, maximum) == ScanUnsigned(Field(NatText(n), rest), maximum)
  {
    hide NatText, ScanDigits, Field;
    NatTextStarts(n);
    FieldStart(NatText(n), rest);
  }

  lemma DocumentReadsBack(item: SessionDocument, limits: Limits, codec: RealCodec)
    requires DocumentFits(item, limits, codec)
    ensures Tail(DocumentText(item, codec))
    ensures ScanDocument(NatText(item.metadata.id) + DocumentText(item, codec), limits, codec) == Some(item)
  {
    hide Tail, ScanUnsigned, ScanBool, ScanQuoted, ScanView, ScanStamp, Field, NatText, BoolText, Quoted, Whole, OneLine,
      Faithful, ViewText, StampText, StampFits, Acceptable;
    var d := item.metadata;
    var f6 := StampText(item.stamp);
    StampReadsBack(item.stamp);
    var f5 := ViewText(d.view, codec, f6);
    ViewReadsBack(d.view, codec, f6);
    var f4 := Field(BoolText(d.canRedo), f5);
    BoolField(d.canRedo, f5);
    var f3 := Field(BoolText(d.canUndo), f4);
    BoolField(d.canUndo, f4);
    var f2 := Field(BoolText(d.dirty), f3);
    BoolField(d.dirty, f3);
    var f1 := Field(Quoted(d.path), f2);
    QuotedField(d.path, f2);
    QuotedField(d.title, f1);
    LeadingBlank(d.id, DocumentText(item, codec), MAX_U64);
    NatField(d.id, DocumentText(item, codec), MAX_U64);
    AllRead(item);
  }

  lemma DocumentLineReadsBack(tag: char, item: SessionDocument, limits: Limits, codec: RealCodec)
    requires DocumentFits(item, limits, codec) && (tag == 'D' || tag == 'R')
    ensures ScanDocumentLine(DocumentFormat(tag, codec)(item), tag, limits, codec) == Some(item)
    ensures Record(DocumentFormat(tag, codec)(item))
  {
    hide Tail, Record, NatText, DocumentText, ScanDocument, ScanUnsigned, ScanChar;
    DocumentReadsBack(item, limits, codec);
    NatField(item.metadata.id, DocumentText(item, codec), MAX_U64);
    TagField(tag, Field(NatText(item.metadata.id), DocumentText(item, codec)));
    var line := DocumentLine(tag, item, codec);
    assert line == [tag, ' '] + (NatText(item.metadata.id) + DocumentText(item, codec));
    assert line[2..] == NatText(item.metadata.id) + DocumentText(item, codec);
  }

  // ---- one workspace ----

  function Tag(w: WorkspaceSession, k: nat): char { if k < |w.documents| then 'D' else 'R' }

  // The workspace after its first k entries have been read.
  function Partial(w: WorkspaceSession, k: nat): WorkspaceSession
    requires k <= |Entries(w)|
  {
    if k <= |w.documents| then WorkspaceSession(w.workspace, w.active, w.documents[..k], [])
    else WorkspaceSession(w.workspace, w.active, w.documents, w.recentlyClosed[..k - |w.documents|])
  }

  lemma PartialNext(w: WorkspaceSession, k: nat)
    requires k < |Entries(w)|
    ensures Partial(w, k + 1) == Appended(Partial(w, k), Entries(w)[k], k < |w.documents|)
  {
    if k < |w.documents| {
      assert w.documents[..k + 1] == w.documents[..k] + [w.documents[k]];
    } else {
      var j := k - |w.documents|;
      assert w.recentlyClosed[..j + 1] == w.recentlyClosed[..j] + [w.recentlyClosed[j]];
      assert Partial(w, k).documents == w.documents && Partial(w, k).recentlyClosed == w.recentlyClosed[..j];
    }
  }

  lemma PartialIsNew(w: WorkspaceSession, k: nat)
    requires k < |Entries(w)| && DistinctEntries(Entries(w))
    ensures !HasId(Partial(w, k), Entries(w)[k].metadata.id)
  {
    var p := Partial(w, k);
    forall item | item in p.documents || item in p.recentlyClosed ensures item.metadata.id != Entries(w)[k].metadata.id {
      var all := Entries(w);
      if item in p.documents {
        var i :| 0 <= i < |p.documents| && p.documents[i] == item;
        assert all[i] == item && i < k;
      } else {
        var i :| 0 <= i < |p.recentlyClosed| && p.recentlyClosed[i] == item;
        assert all[|w.documents| + i] == item && |w.documents| + i < k;
      }
    }
  }

  lemma DocumentLineAt(w: WorkspaceSession, codec: RealCodec, k: nat)
    requires k < |Entries(w)|
    ensures |DocumentLines(w, codec)| == |Entries(w)|
    ensures DocumentLines(w, codec)[k] == DocumentFormat(Tag(w, k), codec)(Entries(w)[k])
  {
    hide DocumentFormat;
  }

  lemma {:induction false} DocumentsReadBack(w: WorkspaceSession, k: nat, rest: seq<string>, limits: Limits, codec: RealCodec)
    requires k <= |Entries(w)| && |DocumentLines(w, codec)| == |Entries(w)|
    requires forall item :: item in Entries(w) ==> DocumentFits(item, limits, codec)
    requires DistinctEntries(Entries(w))
    ensures TakeDocuments(DocumentLines(w, codec)[k..] + rest, k, |w.documents|, |Entries(w)|, Partial(w, k), limits, codec) ==
            Done(w, rest)
    decreases |Entries(w)| - k
  {
    hide DocumentFits, DocumentLines, DocumentFormat, ScanDocumentLine, Entries, Partial, HasId, DistinctEntries, Appended;
    var lines := DocumentLines(w, codec);
    if k == |Entries(w)| {
      AllEntries(w);
      assert lines[k..] + rest == rest;
    } else {
      DocumentLineAt(w, codec, k);
      assert Entries(w)[k] in Entries(w);
      DocumentLineReadsBack(Tag(w, k), Entries(w)[k], limits, codec);
      PartialIsNew(w, k);
      PartialNext(w, k);
      assert (lines[k..] + rest)[0] == lines[k] && (lines[k..] + rest)[1..] == lines[k + 1..] + rest;
      DocumentsReadBack(w, k + 1, rest, limits, codec);
    }
  }

  lemma AllEntries(w: WorkspaceSession)
    ensures Partial(w, |Entries(w)|) == w && Partial(w, 0) == WorkspaceSession(w.workspace, w.active, [], [])
  {
    assert w.documents[..|w.documents|] == w.documents && w.recentlyClosed[..|w.recentlyClosed|] == w.recentlyClosed;
  }

  lemma HeadReadsBack(w: WorkspaceSession)
    requires 0 < w.workspace <= MAX_U64 && FitsId(w.active) && Fits(|w.documents|) && Fits(|w.recentlyClosed|)
    ensures Whole(WorkspaceFields(WorkspaceLine(w))) ==
            Some(WorkspaceHead(w.workspace, w.active, |w.documents|, |w.recentlyClosed|))
    ensures Record(WorkspaceLine(w))
  {
    hide Tail, Record, ScanUnsigned, ScanChar, Field, NatText, Whole;
    EmptyTail();
    var f2 := Field(NatText(|w.recentlyClosed|), "");
    NatField(|w.recentlyClosed|, "", MAX_U64);
    var f1 := Field(NatText(|w.documents|), f2);
    NatField(|w.documents|, f2, MAX_U64);
    var f0 := Field(NatText(IdOrZero(w.active)), f1);
    NatField(IdOrZero(w.active), f1, MAX_U64);
    NatField(w.workspace, f0, MAX_U64);
    TagField('W', Field(NatText(w.workspace), f0));
    AllRead(WorkspaceHead(w.workspace, w.active, |w.documents|, |w.recentlyClosed|));
  }

  lemma DocumentLinesAreRecords(w: WorkspaceSession, limits: Limits, codec: RealCodec)
    requires forall item :: item in Entries(w) ==> DocumentFits(item, limits, codec)
    ensures AllRecord(DocumentLines(w, codec)) && |DocumentLines(w, codec)| == |Entries(w)|
  {
    hide DocumentFits, DocumentFormat, Record, Entries, DocumentLines;
    EntriesSize(w, codec);
    var lines := DocumentLines(w, codec);
    forall l | l in lines ensures Record(l) {
      var k :| 0 <= k < |lines| && lines[k] == l;
      DocumentLineAt(w, codec, k);
      assert Entries(w)[k] in Entries(w);
      DocumentLineReadsBack(Tag(w, k), Entries(w)[k], limits, codec);
    }
  }

  lemma EntriesSize(w: WorkspaceSession, codec: RealCodec)
    ensures |DocumentLines(w, codec)| == |Entries(w)| == |w.documents| + |w.recentlyClosed|
  {}

  lemma WorkspaceReadsBack(w: WorkspaceSession, rest: seq<string>, limits: Limits, codec: RealCodec)
    requires WorkspaceFits(w, limits, codec)
    ensures TakeWorkspace(WorkspaceLines(w, codec) + rest, limits, codec) == Done(w, rest)
    ensures AllRecord(WorkspaceLines(w, codec))
  {
    hide DocumentFits, DocumentKept, WorkspaceOneLine, DocumentLines, WorkspaceLine, WorkspaceFields, Whole, TakeDocuments, AllRecord, Record, DistinctEntries,
      ActiveIsOpen, Entries, Partial;
    EntriesFit(w, limits, codec);
    EntriesSize(w, codec);
    HeadReadsBack(w);
    DocumentLinesAreRecords(w, limits, codec);
    var documents := DocumentLines(w, codec);
    DocumentsReadBack(w, 0, ["E"] + rest, limits, codec);
    AllEntries(w);
    assert documents[0..] == documents;
    var head := [WorkspaceLine(w)];
    var all := head + documents + ["E"] + rest;
    assert all[0] == WorkspaceLine(w) && all[1..] == documents + (["E"] + rest);
    assert (["E"] + rest)[1..] == rest;
    OneRecord(WorkspaceLine(w));
    EndIsRecord();
    AllRecordConcat(head, documents);
    AllRecordConcat(head + documents, ["E"]);
  }

  // ---- the whole session ----

  lemma {:induction false} WorkspacesReadBack(ws: seq<WorkspaceSession>, k: nat, limits: Limits, codec: RealCodec)
    requires k <= |ws| && (forall w :: w in ws ==> WorkspaceFits(w, limits, codec))
    requires forall i, j :: 0 <= i < j < |ws| ==> ws[i].workspace != ws[j].workspace
    ensures TakeWorkspaces(AllWorkspaceLines(ws[k..], codec), |ws| - k, ws[..k], limits, codec) == Done(ws, [])
    ensures AllRecord(AllWorkspaceLines(ws[k..], codec))
    decreases |ws| - k
  {
    hide WorkspaceFits, WorkspaceLines, TakeWorkspace, AllRecord, HasWorkspace;
    if k == |ws| {
      NoneLeft(ws, codec);
    } else {
      assert ws[k] in ws && ws[k..][0] == ws[k] && ws[k..][1..] == ws[k + 1..];
      var rest := AllWorkspaceLines(ws[k + 1..], codec);
      WorkspaceReadsBack(ws[k], rest, limits, codec);
      WorkspacesReadBack(ws, k + 1, limits, codec);
      assert ws[..k + 1] == ws[..k] + [ws[k]];
      assert !HasWorkspace(ws[..k], ws[k].workspace) by { NewWorkspace(ws, k); }
      AllRecordConcat(WorkspaceLines(ws[k], codec), rest);
    }
  }

  lemma NoneLeft(ws: seq<WorkspaceSession>, codec: RealCodec)
    ensures AllWorkspaceLines(ws[|ws|..], codec) == [] && AllRecord([]) && ws[..|ws|] == ws
  {}

  lemma NewWorkspace(ws: seq<WorkspaceSession>, k: nat)
    requires k < |ws| && forall i, j :: 0 <= i < j < |ws| ==> ws[i].workspace != ws[j].workspace
    ensures !HasWorkspace(ws[..k], ws[k].workspace)
  {}

  lemma HeaderReadsBack(session: DocumentSession)
    requires session.schemaVersion <= SCHEMA_VERSION && Fits(|session.workspaces|)
    ensures ScanHeader(HeaderLine(session)) == Some((session.schemaVersion, |session.workspaces|)) && OneLine(HeaderLine(session))
  {
    hide Tail, ScanUnsigned, ScanWord, Field, NatText;
    EmptyTail();
    var f0 := Field(NatText(|session.workspaces|), "");
    NatField(|session.workspaces|, "", MAX_U64);
    NatField(session.schemaVersion, f0, MAX_U32);
    WordField(MAGIC, Field(NatText(session.schemaVersion), f0));
  }

  // What reading makes of the text of a session that is within the limits, its texts on one line: the session in the
  // current schema, unless a title or path is not well formed or the text has become too long.
  ghost function ReadBack(session: DocumentSession, text: string, limits: Limits): Read<SessionStatus, DocumentSession> {
    if !TextsWellFormed(session) || TooLong(text) then Failed(Malformed)
    else if !SizeOk(text, limits.maximumBytes) then Failed(Oversized)
    else Done(session.(schemaVersion := SCHEMA_VERSION), [])
  }

  // Written and read again: the same session, in the current schema, exactly when its titles and paths are well formed and
  // on one line and the text fits into the file.
  lemma SessionRoundTrip(session: DocumentSession, limits: Limits, codec: RealCodec)
    requires SessionKept(session, limits, codec)
    ensures var text := Unlines(SessionLines(session, codec));
            && (TextsOneLine(session) ==> ReadSession(text, limits, codec) == ReadBack(session, text, limits))
            && (ReadSession(text, limits, codec) == Done(session.(schemaVersion := SCHEMA_VERSION), []) <==>
                  TextsOneLine(session) && TextsWellFormed(session) && !TooLong(text) && SizeOk(text, limits.maximumBytes))
  {
    hide SessionKept, ReadSession, SessionLines, TextsWellFormed, TooLong, SizeOk, WorkspaceOneLine;
    var text := Unlines(SessionLines(session, codec));
    if TextsOneLine(session) {
      OneLineRoundTrip(session, limits, codec);
    } else if ReadSession(text, limits, codec).Done? {
      AcceptedOneLine(text, limits, codec);
    }
  }

  lemma OneLineRoundTrip(session: DocumentSession, limits: Limits, codec: RealCodec)
    requires SessionKept(session, limits, codec) && TextsOneLine(session)
    ensures var text := Unlines(SessionLines(session, codec));
            ReadSession(text, limits, codec) == ReadBack(session, text, limits)
  {
    hide WorkspaceKept, WorkspaceOneLine, Lines, Records, Unlines, ScanHeader, HeaderLine, AllWorkspaceLines, TakeWorkspaces,
      AllRecord, TextsWellFormed, WellFormed, TooLong;
    var ws := session.workspaces;
    var body := AllWorkspaceLines(ws, codec);
    UnlinesFirst(HeaderLine(session), body);
    HeaderReadsBack(session);
    WorkspacesReadBack(ws, 0, limits, codec);
    assert ws[0..] == ws && ws[..0] == [];
    RecordsOnly(body);
    HeaderThenBody(HeaderLine(session), Unlines(body));
    assert NumbersFaithful(ws, codec) by { KeptNumbers(session, limits, codec); }
    SessionWellFormed(session, codec);
  }

  lemma KeptNumbers(session: DocumentSession, limits: Limits, codec: RealCodec)
    requires SessionKept(session, limits, codec)
    ensures NumbersFaithful(session.workspaces, codec)
  {
    hide Faithful, Acceptable, DistinctEntries, ActiveIsOpen, StampFits;
    forall w, item | w in session.workspaces && (item in w.documents || item in w.recentlyClosed)
      ensures Faithful(codec, item.metadata.view.zoom)
    {
      assert WorkspaceKept(w, limits, codec) && item in Entries(w);
    }
  }
}
