// Writing the open and recently closed documents of workspaces as text, and reading them back.
module DocSession {
  import opened Basics
  import opened DocTypes
  import opened UnitText
  import opened SessionText

  datatype FileStamp = FileStamp(size: nat, lastWriteTime: nat, fileId: nat, volumeSerial: nat)
  datatype SessionDocument = SessionDocument(metadata: WorkspaceDocument, stamp: Option<FileStamp>)
  datatype WorkspaceSession = WorkspaceSession(
    workspace: nat, active: Option<nat>, documents: seq<SessionDocument>, recentlyClosed: seq<SessionDocument>)
  datatype DocumentSession = DocumentSession(schemaVersion: nat, workspaces: seq<WorkspaceSession>)

  datatype SessionStatus = Malformed | Oversized | UnsupportedVersion | DuplicateIdentity

  datatype Limits = Limits(
    maximumBytes: nat, maximumWorkspaces: nat, maximumDocumentsPerWorkspace: nat, maximumStringUnits: nat)

  const DEFAULT_LIMITS := Limits(4 * 1024 * 1024, 32, 4096, 32 * 1024)
  const SCHEMA_VERSION: nat := 1
  const MAGIC := "MWFL_DOCUMENT_SESSION"

  // ---- one document ----

  function StampText(stamp: Option<FileStamp>): string {
    match stamp
    case None => Field(BoolText(false), "")
    case Some(t) =>
      Field(BoolText(true), Field(NatText(t.size), Field(NatText(t.lastWriteTime), Field(NatText(t.fileId),
        Field(NatText(t.volumeSerial), "")))))
  }

  function ScanStamp(s: string): Scanned<Option<FileStamp>> {
    var (present, s0) :- ScanBool(s);
    if !present then Good(None, s0)
    else
      var (size, s1) :- ScanUnsigned(s0, MAX_U64);
      var (time, s2) :- ScanUnsigned(s1, MAX_U64);
      var (file, s3) :- ScanUnsigned(s2, MAX_U64);
      var (volume, s4) :- ScanUnsigned(s3, MAX_U32);
      Good(Some(FileStamp(size, time, file, volume)), s4)
  }

  function ViewText(v: DocumentViewState, codec: RealCodec, rest: string): string {
    Field(NatText(v.selectionStart), Field(NatText(v.selectionEnd), Field(NatText(v.firstVisibleUnit),
      Field(codec.format(v.zoom), rest))))
  }

  function ScanView(s: string, codec: RealCodec): Scanned<DocumentViewState> {
    var (start, s0) :- ScanUnsigned(s, MAX_U64);
    var (end, s1) :- ScanUnsigned(s0, MAX_U64);
    var (first, s2) :- ScanUnsigned(s1, MAX_U64);
    var (zoom, s3) :- codec.scan(s2);
    Good(DocumentViewState(start, end, first, zoom), s3)
  }

  // Everything after the id.
  function DocumentText(item: SessionDocument, codec: RealCodec): string {
    var d := item.metadata;
    Field(Quoted(d.title), Field(Quoted(d.path), Field(BoolText(d.dirty), Field(BoolText(d.canUndo),
      Field(BoolText(d.canRedo), ViewText(d.view, codec, StampText(item.stamp)))))))
  }

  function DocumentLine(tag: char, item: SessionDocument, codec: RealCodec): string {
    [tag] + Field(NatText(item.metadata.id), DocumentText(item, codec))
  }

  function DocumentFields(s: string, codec: RealCodec): Scanned<SessionDocument> {
    var (id, s0) :- ScanUnsigned(s, MAX_U64);
    var (title, s1) :- ScanQuoted(s0);
    var (path, s2) :- ScanQuoted(s1);
    var (dirty, s3) :- ScanBool(s2);
    var (canUndo, s4) :- ScanBool(s3);
    var (canRedo, s5) :- ScanBool(s4);
    var (view, s6) :- ScanView(s5, codec);
    var (stamp, s7) :- ScanStamp(s6);
    Good(SessionDocument(WorkspaceDocument(id, title, path, dirty, canUndo, canRedo, view), stamp), s7)
  }

  predicate Acceptable(item: SessionDocument, limits: Limits) {
    ValidDocument(item.metadata) && |item.metadata.title| <= limits.maximumStringUnits &&
    |item.metadata.path| <= limits.maximumStringUnits
  }

  function ScanDocument(s: string, limits: Limits, codec: RealCodec): Option<SessionDocument> {
    var item := Whole(DocumentFields(s, codec));
    if item.Some? && Acceptable(item.value, limits) then item else None
  }

  // A document record: its tag, a blank, the fields.
  function ScanDocumentLine(line: string, tag: char, limits: Limits, codec: RealCodec): Option<SessionDocument> {
    if |line| < 2 || line[0] != tag || line[1] != ' ' then None else ScanDocument(line[2..], limits, codec)
  }

  // ---- one workspace ----

  predicate ListHasId(items: seq<SessionDocument>, id: nat) { exists item :: item in items && item.metadata.id == id }

  predicate HasId(w: WorkspaceSession, id: nat) { ListHasId(w.documents, id) || ListHasId(w.recentlyClosed, id) }

  function WorkspaceLine(w: WorkspaceSession): string {
    ['W'] + Field(NatText(w.workspace), Field(NatText(IdOrZero(w.active)), Field(NatText(|w.documents|),
      Field(NatText(|w.recentlyClosed|), ""))))
  }

  datatype WorkspaceHead = WorkspaceHead(id: nat, active: Option<nat>, documents: nat, recent: nat)

  function WorkspaceFields(line: string): Scanned<WorkspaceHead> {
    var (tag, s0) :- ScanChar(line);
    var (id, s1) :- ScanUnsigned(s0, MAX_U64);
    var (active, s2) :- ScanUnsigned(s1, MAX_U64);
    var (documents, s3) :- ScanUnsigned(s2, MAX_U64);
    var (recent, s4) :- ScanUnsigned(s3, MAX_U64);
    if tag != 'W' || id == 0 then Bad else Good(WorkspaceHead(id, IdOf(active), documents, recent), s4)
  }

  function DocumentFormat(tag: char, codec: RealCodec): SessionDocument -> string { item => DocumentLine(tag, item, codec) }

  function DocumentLines(w: WorkspaceSession, codec: RealCodec): seq<string> {
    Printed(w.documents, DocumentFormat('D', codec)) + Printed(w.recentlyClosed, DocumentFormat('R', codec))
  }

  function WorkspaceLines(w: WorkspaceSession, codec: RealCodec): seq<string> {
    [WorkspaceLine(w)] + DocumentLines(w, codec) + ["E"]
  }

  function Appended(w: WorkspaceSession, item: SessionDocument, open: bool): WorkspaceSession {
    if open then w.(documents := w.documents + [item]) else w.(recentlyClosed := w.recentlyClosed + [item])
  }

  // Reads documents number `k` up to `total` into a workspace; the first `open` of them are open ones.
  function TakeDocuments(lines: seq<string>, k: nat, open: nat, total: nat, w: WorkspaceSession, limits: Limits, codec: RealCodec)
    : Read<SessionStatus, WorkspaceSession>
    decreases total - k
  {
    if k >= total then Done(w, lines)
    else if lines == [] then Failed(Malformed)
    else match ScanDocumentLine(lines[0], if k < open then 'D' else 'R', limits, codec)
      case None => Failed(Malformed)
      case Some(item) =>
        if HasId(w, item.metadata.id) then Failed(DuplicateIdentity)
        else TakeDocuments(lines[1..], k + 1, open, total, Appended(w, item, k < open), limits, codec)
  }

  predicate TooMany(head: WorkspaceHead, limits: Limits) {
    head.documents > limits.maximumDocumentsPerWorkspace || head.recent > limits.maximumDocumentsPerWorkspace ||
    head.documents + head.recent > limits.maximumDocumentsPerWorkspace
  }

  predicate ActiveIsOpen(w: WorkspaceSession) { w.active.Some? ==> ListHasId(w.documents, w.active.value) }

  function TakeWorkspace(lines: seq<string>, limits: Limits, codec: RealCodec): Read<SessionStatus, WorkspaceSession> {
    if lines == [] || Whole(WorkspaceFields(lines[0])).None? then Failed(Malformed)
    else
      var head := Whole(WorkspaceFields(lines[0])).value;
      if TooMany(head, limits) then Failed(Oversized)
      else
        var (w, rest) :- TakeDocuments(lines[1..], 0, head.documents, head.documents + head.recent,
                                       WorkspaceSession(head.id, head.active, [], []), limits, codec);
        if !ActiveIsOpen(w) || rest == [] || rest[0] != "E" then Failed(Malformed) else Done(w, rest[1..])
  }

  // ---- the whole file ----

  function HeaderLine(session: DocumentSession): string {
    MAGIC + Field(NatText(session.schemaVersion), Field(NatText(|session.workspaces|), ""))
  }

  function ScanHeader(line: string): Option<(nat, nat)> {
    match ScanWord(line)
    case Bad => None
    case Good(word, s0) =>
      match ScanUnsigned(s0, MAX_U32)
      case Bad => None
      case Good(version, s1) =>
        match ScanUnsigned(s1, MAX_U64)
        case Bad => None
        case Good(count, s2) => if word != MAGIC || !Finished(s2) then None else Some((version, count))
  }

  function AllWorkspaceLines(ws: seq<WorkspaceSession>, codec: RealCodec): seq<string> {
    if ws == [] then [] else WorkspaceLines(ws[0], codec) + AllWorkspaceLines(ws[1..], codec)
  }

  function SessionLines(session: DocumentSession, codec: RealCodec): seq<string> {
    [HeaderLine(session)] + AllWorkspaceLines(session.workspaces, codec)
  }

  predicate HasWorkspace(ws: seq<WorkspaceSession>, id: nat) { exists w :: w in ws && w.workspace == id }

  function TakeWorkspaces(lines: seq<string>, n: nat, taken: seq<WorkspaceSession>, limits: Limits, codec: RealCodec)
    : Read<SessionStatus, seq<WorkspaceSession>>
    decreases n
  {
    if n == 0 then Done(taken, lines)
    else
      var (w, rest) :- TakeWorkspace(lines, limits, codec);
      if HasWorkspace(taken, w.workspace) then Failed(DuplicateIdentity)
      else TakeWorkspaces(rest, n - 1, taken + [w], limits, codec)
  }

  function TakeBody(lines: seq<string>, n: nat, limits: Limits, codec: RealCodec): Read<SessionStatus, DocumentSession> {
    var (ws, rest) :- TakeWorkspaces(lines, n, [], limits, codec);
    if AllBlank(rest) then Done(DocumentSession(SCHEMA_VERSION, ws), []) else Failed(Malformed)
  }

  // What a text describes. Version 0 is read as version 1.
  function ReadSession(text: string, limits: Limits, codec: RealCodec): Read<SessionStatus, DocumentSession> {
    if Utf8Size(text).None? then Failed(Malformed)
    else if !SizeOk(text, limits.maximumBytes) then Failed(Oversized)
    else if text == "" then Failed(Malformed)
    else match ScanHeader(Lines(text)[0])
      case None => Failed(Malformed)
      case Some((version, count)) =>
        if version > SCHEMA_VERSION then Failed(UnsupportedVersion)
        else if count > limits.maximumWorkspaces then Failed(Oversized)
        else TakeBody(Records(Lines(AfterLine(text))), count, limits, codec)
  }

  // ---- writing ----

  method WriteWorkspace(w: WorkspaceSession, codec: RealCodec) returns (text: string)
    ensures text == Unlines(WorkspaceLines(w, codec))
  {
    hide Printed, WorkspaceLine, Unlines;
    var documents := WriteRows(w.documents, DocumentFormat('D', codec));
    var recent := WriteRows(w.recentlyClosed, DocumentFormat('R', codec));
    text := WorkspaceLine(w) + ['\n'] + (documents + recent) + ("E" + ['\n']);
    UnlinesConcat(Printed(w.documents, DocumentFormat('D', codec)), Printed(w.recentlyClosed, DocumentFormat('R', codec)));
    UnlinesFirst(WorkspaceLine(w), DocumentLines(w, codec));
    UnlinesConcat([WorkspaceLine(w)] + DocumentLines(w, codec), ["E"]);
    OneLineFile("E");
  }

  method SerializeDocumentSession(session: DocumentSession, codec: RealCodec) returns (text: string)
    ensures text == Unlines(SessionLines(session, codec))
  {
    hide WorkspaceLines, HeaderLine, Unlines, AllWorkspaceLines;
    var ws := session.workspaces;
    text := HeaderLine(session) + ['\n'];
    OneLineFile(HeaderLine(session));
    NoWorkspaceLines(ws, codec);
    assert [HeaderLine(session)] + [] == [HeaderLine(session)];
    for i := 0 to |ws|
      invariant text == Unlines([HeaderLine(session)] + AllWorkspaceLines(ws[..i], codec))
    {
      var lines := WriteWorkspace(ws[i], codec);
      text := text + lines;
      WorkspaceLinesNext(ws, i, codec);
      var before := AllWorkspaceLines(ws[..i], codec);
      UnlinesConcat([HeaderLine(session)] + before, WorkspaceLines(ws[i], codec));
      assert [HeaderLine(session)] + before + WorkspaceLines(ws[i], codec) == [HeaderLine(session)] + (before + WorkspaceLines(ws[i], codec));
    }
    assert ws[..|ws|] == ws;
  }

  lemma NoWorkspaceLines(ws: seq<WorkspaceSession>, codec: RealCodec)
    ensures AllWorkspaceLines(ws[..0], codec) == []
  {}

  lemma {:induction false} WorkspaceLinesNext(ws: seq<WorkspaceSession>, i: nat, codec: RealCodec)
    requires i < |ws|
    ensures AllWorkspaceLines(ws[..i + 1], codec) == AllWorkspaceLines(ws[..i], codec) + WorkspaceLines(ws[i], codec)
  {
    hide WorkspaceLines;
    if i == 0 {
      assert ws[..1][1..] == [];
    } else {
      WorkspaceLinesNext(ws[1..], i - 1, codec);
      assert ws[..i + 1][1..] == ws[1..][..i] && ws[..i][1..] == ws[1..][..i - 1];
    }
  }

  // ---- reading ----

  method ReadDocuments(text: string, head: WorkspaceHead, limits: Limits, codec: RealCodec)
    returns (failure: Option<SessionStatus>, w: WorkspaceSession, rest: string)
    ensures match TakeDocuments(Records(Lines(text)), 0, head.documents, head.documents + head.recent,
                                WorkspaceSession(head.id, head.active, [], []), limits, codec)
            case Failed(status) => failure == Some(status)
            case Done(r, l) => failure == None && w == r && Records(Lines(rest)) == l
  {
    hide Lines, Records, ScanDocumentLine, HasId;
    w := WorkspaceSession(head.id, head.active, [], []);
    rest := text;
    var total := head.documents + head.recent;
    for k := 0 to total
      invariant TakeDocuments(Records(Lines(text)), 0, head.documents, total, WorkspaceSession(head.id, head.active, [], []), limits, codec) ==
                TakeDocuments(Records(Lines(rest)), k, head.documents, total, w, limits, codec)
    {
      var line;
      line, rest := ReadRequiredLine(rest);
      if line.None? { return Some(Malformed), w, rest; }
      var item := ScanDocumentLine(line.value, if k < head.documents then 'D' else 'R', limits, codec);
      if item.None? { return Some(Malformed), w, rest; }
      if HasId(w, item.value.metadata.id) { return Some(DuplicateIdentity), w, rest; }
      if k < head.documents {
        w := w.(documents := w.documents + [item.value]);
      } else {
        w := w.(recentlyClosed := w.recentlyClosed + [item.value]);
      }
    }
    failure := None;
  }

  method ReadWorkspace(text: string, limits: Limits, codec: RealCodec)
    returns (failure: Option<SessionStatus>, w: WorkspaceSession, rest: string)
    ensures match TakeWorkspace(Records(Lines(text)), limits, codec)
            case Failed(status) => failure == Some(status)
            case Done(r, l) => failure == None && w == r && Records(Lines(rest)) == l
  {
    hide Lines, Records, TakeDocuments, WorkspaceFields, Whole;
    w := WorkspaceSession(0, None, [], []);
    var line;
    line, rest := ReadRequiredLine(text);
    if line.None? { return Some(Malformed), w, rest; }
    var head := Whole(WorkspaceFields(line.value));
    if head.None? { return Some(Malformed), w, rest; }
    if TooMany(head.value, limits) { return Some(Oversized), w, rest; }
    failure, w, rest := ReadDocuments(rest, head.value, limits, codec);
    if failure.Some? { return; }
    if !ActiveIsOpen(w) { return Some(Malformed), w, rest; }
    var end;
    end, rest := ReadRequiredLine(rest);
    if end.None? || end.value != "E" { return Some(Malformed), w, rest; }
  }

  method ParseDocumentSession(text: string, limits: Limits, codec: RealCodec)
    returns (failure: Option<SessionStatus>, session: Option<DocumentSession>)
    ensures match ReadSession(text, limits, codec)
            case Failed(status) => failure == Some(status) && session == None
            case Done(r, _) => failure == None && session == Some(r)
  {
    hide Lines, Records, TakeWorkspace, ScanHeader, HasWorkspace;
    session := None;
    var size := Utf8Size(text);
    if size.None? { return Some(Malformed), None; }
    if size.value > limits.maximumBytes { return Some(Oversized), None; }
    if text == "" { return Some(Malformed), None; }
    FirstOfLines(text);
    var header := ScanHeader(text[..LineEnd(text)]);
    if header.None? { return Some(Malformed), None; }
    if header.value.0 > SCHEMA_VERSION { return Some(UnsupportedVersion), None; }
    if header.value.1 > limits.maximumWorkspaces { return Some(Oversized), None; }
    var n, ws, rest := header.value.1, [], AfterLine(text);
    for i := 0 to n
      invariant TakeWorkspaces(Records(Lines(AfterLine(text))), n, [], limits, codec) ==
                TakeWorkspaces(Records(Lines(rest)), n - i, ws, limits, codec)
    {
      var w;
      failure, w, rest := ReadWorkspace(rest, limits, codec);
      if failure.Some? { return; }
      if HasWorkspace(ws, w.workspace) { return Some(DuplicateIdentity), None; }
      ws := ws + [w];
    }
    var blank := OnlyBlankRecords(rest);
    if !blank { return Some(Malformed), None; }
    failure, session := None, Some(DocumentSession(SCHEMA_VERSION, ws));
  }
}
