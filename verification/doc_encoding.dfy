// The text of a document session is well formed exactly when the titles and paths in it are.
module DocEncoding {
  import opened Basics
  import opened DocTypes
  import opened UnitText
  import opened SessionText
  import opened SessionEncoding
  import opened DocSession

  predicate ItemWellFormed(item: SessionDocument) { WellFormed(item.metadata.title) && WellFormed(item.metadata.path) }

  ghost predicate ItemsWellFormed(items: seq<SessionDocument>) { forall item :: item in items ==> ItemWellFormed(item) }

  ghost predicate TextsWellFormed(session: DocumentSession) {
    forall w :: w in session.workspaces ==> ItemsWellFormed(w.documents) && ItemsWellFormed(w.recentlyClosed)
  }

  ghost predicate ZoomsFaithful(items: seq<SessionDocument>, codec: RealCodec) {
    forall item :: item in items ==> Faithful(codec, item.metadata.view.zoom)
  }

  ghost predicate NumbersFaithful(ws: seq<WorkspaceSession>, codec: RealCodec) {
    forall w :: w in ws ==> ZoomsFaithful(w.documents, codec) && ZoomsFaithful(w.recentlyClosed, codec)
  }

  // ---- lines ----

  lemma StampWellFormed(stamp: Option<FileStamp>)
    ensures FieldEnd(StampText(stamp)) && WellFormed(StampText(stamp))
  {
    hide WellFormed, Field, FieldEnd, NatText, BoolText;
    AsciiIsWellFormed("");
    assert FieldEnd("") by { NothingEnds(); }
    match stamp
    case None =>
      BoolWellFormed(false);
      FieldWellFormed(BoolText(false), "");
    case Some(t) =>
      NatFieldWellFormed(t.volumeSerial, "");
      var f3 := Field(NatText(t.volumeSerial), "");
      NatFieldWellFormed(t.fileId, f3);
      var f2 := Field(NatText(t.fileId), f3);
      NatFieldWellFormed(t.lastWriteTime, f2);
      var f1 := Field(NatText(t.lastWriteTime), f2);
      NatFieldWellFormed(t.size, f1);
      BoolWellFormed(true);
      FieldWellFormed(BoolText(true), Field(NatText(t.size), f1));
  }

  lemma NothingEnds()
    ensures FieldEnd("")
  {}

  lemma ViewWellFormed(v: DocumentViewState, codec: RealCodec, rest: string)
    requires Faithful(codec, v.zoom) && FieldEnd(rest) && WellFormed(rest)
    ensures FieldEnd(ViewText(v, codec, rest)) && WellFormed(ViewText(v, codec, rest))
  {
    hide WellFormed, Field, FieldEnd, NatText;
    FieldWellFormed(codec.format(v.zoom), rest);
    var f2 := Field(codec.format(v.zoom), rest);
    NatFieldWellFormed(v.firstVisibleUnit, f2);
    var f1 := Field(NatText(v.firstVisibleUnit), f2);
    NatFieldWellFormed(v.selectionEnd, f1);
    NatFieldWellFormed(v.selectionStart, Field(NatText(v.selectionEnd), f1));
  }

  lemma DocumentWellFormed(tag: char, item: SessionDocument, codec: RealCodec)
    requires Ascii(tag) && Faithful(codec, item.metadata.view.zoom)
    ensures WellFormed(DocumentLine(tag, item, codec)) <==> ItemWellFormed(item)
  {
    hide WellFormed, Field, FieldEnd, NatText, BoolText, Quoted, StampText, ViewText;
    var d := item.metadata;
    StampWellFormed(item.stamp);
    ViewWellFormed(d.view, codec, StampText(item.stamp));
    var f5 := ViewText(d.view, codec, StampText(item.stamp));
    BoolWellFormed(d.canRedo);
    FieldWellFormed(BoolText(d.canRedo), f5);
    var f4 := Field(BoolText(d.canRedo), f5);
    BoolWellFormed(d.canUndo);
    FieldWellFormed(BoolText(d.canUndo), f4);
    var f3 := Field(BoolText(d.canUndo), f4);
    BoolWellFormed(d.dirty);
    FieldWellFormed(BoolText(d.dirty), f3);
    var f2 := Field(BoolText(d.dirty), f3);
    QuotedWellFormed(d.path);
    FieldWellFormed(Quoted(d.path), f2);
    var f1 := Field(Quoted(d.path), f2);
    QuotedWellFormed(d.title);
    FieldWellFormed(Quoted(d.title), f1);
    NatWellFormed(d.id);
    FieldWellFormed(NatText(d.id), Field(Quoted(d.title), f1));
    TagWellFormed([tag], Field(NatText(d.id), Field(Quoted(d.title), f1)));
  }

  lemma WorkspaceLineWellFormed(w: WorkspaceSession)
    ensures WellFormed(WorkspaceLine(w)) && WellFormed("E")
  {
    hide WellFormed, Field, FieldEnd, NatText;
    AsciiIsWellFormed("");
    AsciiIsWellFormed("E");
    assert FieldEnd("") by { NothingEnds(); }
    NatFieldWellFormed(|w.recentlyClosed|, "");
    var f2 := Field(NatText(|w.recentlyClosed|), "");
    NatFieldWellFormed(|w.documents|, f2);
    var f1 := Field(NatText(|w.documents|), f2);
    NatFieldWellFormed(IdOrZero(w.active), f1);
    var f0 := Field(NatText(IdOrZero(w.active)), f1);
    NatFieldWellFormed(w.workspace, f0);
    TagWellFormed(['W'], Field(NatText(w.workspace), f0));
  }

  lemma HeaderWellFormed(session: DocumentSession)
    ensures WellFormed(HeaderLine(session))
  {
    hide WellFormed, Field, FieldEnd, NatText;
    AsciiIsWellFormed("");
    assert FieldEnd("") by { NothingEnds(); }
    NatFieldWellFormed(|session.workspaces|, "");
    var f := Field(NatText(|session.workspaces|), "");
    NatFieldWellFormed(session.schemaVersion, f);
    TagWellFormed(MAGIC, Field(NatText(session.schemaVersion), f));
  }

  // ---- the whole file ----

  lemma ItemLinesWellFormed(tag: char, items: seq<SessionDocument>, codec: RealCodec)
    requires Ascii(tag) && ZoomsFaithful(items, codec)
    ensures AllWellFormed(Printed(items, DocumentFormat(tag, codec))) <==> ItemsWellFormed(items)
  {
    hide WellFormed, Printed, DocumentLine, ItemWellFormed, Faithful;
    PrintedWellFormed(items, DocumentFormat(tag, codec));
    forall item | item in items ensures WellFormed(DocumentFormat(tag, codec)(item)) <==> ItemWellFormed(item) {
      DocumentWellFormed(tag, item, codec);
    }
  }

  lemma OneWorkspaceWellFormed(w: WorkspaceSession, codec: RealCodec)
    requires ZoomsFaithful(w.documents, codec) && ZoomsFaithful(w.recentlyClosed, codec)
    ensures AllWellFormed(WorkspaceLines(w, codec)) <==> ItemsWellFormed(w.documents) && ItemsWellFormed(w.recentlyClosed)
  {
    hide WellFormed, Printed, WorkspaceLine, ItemsWellFormed, ZoomsFaithful, AllWellFormed, DocumentFormat;
    WorkspaceLineWellFormed(w);
    OneLineWellFormed(WorkspaceLine(w));
    OneLineWellFormed("E");
    ItemLinesWellFormed('D', w.documents, codec);
    ItemLinesWellFormed('R', w.recentlyClosed, codec);
    AllWellFormedConcat(Printed(w.documents, DocumentFormat('D', codec)), Printed(w.recentlyClosed, DocumentFormat('R', codec)));
    AllWellFormedConcat([WorkspaceLine(w)], DocumentLines(w, codec));
    AllWellFormedConcat([WorkspaceLine(w)] + DocumentLines(w, codec), ["E"]);
  }

  lemma OneLineWellFormed(line: string)
    requires WellFormed(line)
    ensures AllWellFormed([line])
  {
    hide WellFormed;
  }

  lemma {:induction false} WorkspacesWellFormed(ws: seq<WorkspaceSession>, codec: RealCodec)
    requires NumbersFaithful(ws, codec)
    ensures AllWellFormed(AllWorkspaceLines(ws, codec)) <==>
            forall w :: w in ws ==> ItemsWellFormed(w.documents) && ItemsWellFormed(w.recentlyClosed)
  {
    hide WellFormed, WorkspaceLines, ItemsWellFormed, ZoomsFaithful;
    if ws == [] {
    } else {
      OneWorkspaceWellFormed(ws[0], codec);
      WorkspacesWellFormed(ws[1..], codec);
      AllWellFormedConcat(WorkspaceLines(ws[0], codec), AllWorkspaceLines(ws[1..], codec));
      assert ws == [ws[0]] + ws[1..];
    }
  }

  lemma SessionWellFormed(session: DocumentSession, codec: RealCodec)
    requires NumbersFaithful(session.workspaces, codec)
    ensures WellFormed(Unlines(SessionLines(session, codec))) <==> TextsWellFormed(session)
  {
    hide WellFormed, AllWorkspaceLines, ItemsWellFormed, NumbersFaithful, HeaderLine, Unlines, AllWellFormed;
    HeaderWellFormed(session);
    OneLineWellFormed(HeaderLine(session));
    WorkspacesWellFormed(session.workspaces, codec);
    AllWellFormedConcat([HeaderLine(session)], AllWorkspaceLines(session.workspaces, codec));
    UnlinesWellFormed(SessionLines(session, codec));
  }
}
