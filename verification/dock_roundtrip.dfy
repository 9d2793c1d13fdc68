// What a docking session text says: writing then reading gives the layout back, and lines of newer writers are ignored.
module DockRoundTrip {
  import opened Basics
  import opened DockTypes
  import opened DockValidate
  import TextEncoding
  import opened UnitText
  import opened SessionText
  import opened SessionEncoding
  import opened DockSession
  import opened DockEncoding
  import opened SessionScanning
  import opened DockAccepted

  // ---- what fits the text format ----

  predicate FitsText(s: string, limits: Limits) { OneLine(s) && |s| <= limits.maximumStringUnits }

  predicate PanelFits(p: DockPanel, limits: Limits) { Fits(p.id) && FitsText(p.title, limits) }

  predicate GroupFits(g: DockGroup, limits: Limits) {
    Fits(g.id) && FitsId(g.active) && |g.panels| <= limits.maximumPanels && Fits(|g.panels|) && forall x :: x in g.panels ==> Fits(x)
  }

  ghost predicate NodeFits(n: DockNode, codec: RealCodec) {
    Fits(n.id) && Fits(n.group) && Fits(n.first) && Fits(n.second) && Faithful(codec, n.ratio)
  }

  ghost predicate HostFits(h: DockFloatingHost, codec: RealCodec, limits: Limits) {
    && Fits(h.id) && Fits(h.root) && FitsText(h.placement.monitorKey, limits)
    && PlacementFaithful(codec, h.placement)
  }

  predicate EntryFits(e: DockAutoHideEntry) { Fits(e.panel) && Fits(e.order) }

  // ---- every record reads back ----

  lemma RootReadsBack(root: nat, active: Option<nat>)
    requires Fits(root) && FitsId(active)
    ensures Whole(RootFields(RootLine(root, active))) == Some((root, active)) && Record(RootLine(root, active))
  {
    hide Tail, Record, ScanUnsigned, ScanChar, Field, NatText, Whole;
    var f1 := Field(NatText(IdOrZero(active)), "");
    assert Tail("") by { EmptyTail(); }
    NatField(IdOrZero(active), "", MAX_U64);
    NatField(root, f1, MAX_U64);
    TagField('R', Field(NatText(root), f1));
    AllRead((root, active));
  }

  lemma PanelReadsBack(p: DockPanel, limits: Limits)
    requires PanelFits(p, limits)
    ensures PanelScan(limits)(PanelLine(p)) == Some(p) && Record(PanelLine(p))
  {
    hide Tail, Record, ScanUnsigned, ScanBool, ScanQuoted, ScanChar, Field, NatText, BoolText, Quoted, Whole, OneLine;
    EmptyTail();
    var f3 := Field(Quoted(p.title), "");
    QuotedField(p.title, "");
    var f2 := Field(BoolText(p.closable), f3);
    BoolField(p.closable, f3);
    var f1 := Field(NatText(PanelRoleCode(p.role)), f2);
    NatField(PanelRoleCode(p.role), f2, MAX_U32);
    NatField(p.id, f1, MAX_U64);
    TagField('P', Field(NatText(p.id), f1));
    AllRead(p);
  }

  lemma {:induction false} IdsReadBack(ids: seq<nat>)
    requires forall x :: x in ids ==> Fits(x)
    ensures Tail(IdFields(ids)) && ScanIds(IdFields(ids), |ids|) == Good(ids, "")
  {
    hide Tail, ScanUnsigned, Field, NatText;
    if ids == [] {
      EmptyTail();
    } else {
      assert ids[0] in ids;
      IdsReadBack(ids[1..]);
      NatField(ids[0], IdFields(ids[1..]), MAX_U64);
      assert ids == [ids[0]] + ids[1..];
    }
  }

  lemma GroupReadsBack(g: DockGroup, limits: Limits)
    requires GroupFits(g, limits)
    ensures GroupScan(limits)(GroupLine(g)) == Some(g) && Record(GroupLine(g))
  {
    hide Tail, Record, ScanUnsigned, ScanChar, ScanIds, Field, IdFields, NatText, Whole;
    IdsReadBack(g.panels);
    var f4 := IdFields(g.panels);
    var f3 := Field(NatText(|g.panels|), f4);
    NatField(|g.panels|, f4, MAX_U64);
    var f2 := Field(NatText(IdOrZero(g.active)), f3);
    NatField(IdOrZero(g.active), f3, MAX_U64);
    var f1 := Field(NatText(GroupRoleCode(g.role)), f2);
    NatField(GroupRoleCode(g.role), f2, MAX_U32);
    NatField(g.id, f1, MAX_U64);
    TagField('G', Field(NatText(g.id), f1));
    AllRead(g);
  }

  lemma NodeReadsBack(n: DockNode, codec: RealCodec)
    requires NodeFits(n, codec)
    ensures NodeScan(codec)(NodeFormat(codec)(n)) == Some(n) && Record(NodeFormat(codec)(n))
  {
    hide Tail, Record, ScanUnsigned, ScanChar, Field, NatText, Whole, Faithful;
    EmptyTail();
    var f6 := Field(codec.format(n.ratio), "");
    RealField(codec, n.ratio, "");
    var f5 := Field(NatText(n.second), f6);
    NatField(n.second, f6, MAX_U64);
    var f4 := Field(NatText(n.first), f5);
    NatField(n.first, f5, MAX_U64);
    var f3 := Field(NatText(OrientationCode(n.orientation)), f4);
    NatField(OrientationCode(n.orientation), f4, MAX_U32);
    var f2 := Field(NatText(n.group), f3);
    NatField(n.group, f3, MAX_U64);
    var f1 := Field(NatText(KindCode(n.kind)), f2);
    NatField(KindCode(n.kind), f2, MAX_U32);
    NatField(n.id, f1, MAX_U64);
    TagField('N', Field(NatText(n.id), f1));
    AllRead(n);
  }

  lemma HostReadsBack(h: DockFloatingHost, codec: RealCodec, limits: Limits)
    requires HostFits(h, codec, limits)
    ensures HostScan(codec, limits)(HostFormat(codec)(h)) == Some(h) && Record(HostFormat(codec)(h))
  {
    hide Tail, Record, ScanUnsigned, ScanQuoted, ScanChar, Field, NatText, Quoted, Whole, Faithful, OneLine;
    EmptyTail();
    var p := h.placement;
    var f6 := Field(Quoted(p.monitorKey), "");
    QuotedField(p.monitorKey, "");
    var f5 := Field(codec.format(p.height), f6);
    RealField(codec, p.height, f6);
    var f4 := Field(codec.format(p.width), f5);
    RealField(codec, p.width, f5);
    var f3 := Field(codec.format(p.y), f4);
    RealField(codec, p.y, f4);
    var f2 := Field(codec.format(p.x), f3);
    RealField(codec, p.x, f3);
    var f1 := Field(NatText(h.root), f2);
    NatField(h.root, f2, MAX_U64);
    NatField(h.id, f1, MAX_U64);
    TagField('F', Field(NatText(h.id), f1));
    AllRead(h);
  }

  lemma EntryReadsBack(e: DockAutoHideEntry)
    requires EntryFits(e)
    ensures EntryScan()(EntryLine(e)) == Some(e) && Record(EntryLine(e))
  {
    hide Tail, Record, ScanUnsigned, ScanChar, Field, NatText, Whole;
    EmptyTail();
    var f2 := Field(NatText(e.order), "");
    NatField(e.order, "", MAX_U64);
    var f1 := Field(NatText(EdgeCode(e.edge)), f2);
    NatField(EdgeCode(e.edge), f2, MAX_U32);
    NatField(e.panel, f1, MAX_U64);
    TagField('A', Field(NatText(e.panel), f1));
    AllRead(e);
  }

  lemma CountReadsBack(tag: string, n: nat)
    requires tag != "" && (forall c :: c in tag ==> !IsSpace(c)) && tag[0] != 'X' && Fits(n)
    ensures ScanCount(CountLine(tag, n), tag) == Some(n) && Record(CountLine(tag, n))
  {
    hide Tail, Record, ScanUnsigned, ScanWord, Field, NatText;
    EmptyTail();
    NatField(n, "", MAX_U64);
    WordField(tag, Field(NatText(n), ""));
  }

  lemma HeaderReadsBack()
    ensures ScanHeader(HeaderLine()) == Some(SCHEMA_VERSION) && OneLine(HeaderLine())
  {
    hide Tail, ScanUnsigned, ScanWord, Field, NatText;
    EmptyTail();
    NatField(SCHEMA_VERSION, "", MAX_U32);
    WordField(MAGIC, Field(NatText(SCHEMA_VERSION), ""));
  }

  // ---- every section reads back ----

  ghost predicate RowsReadable<T(!new)>(rows: seq<T>, format: T -> string, scan: string -> Option<T>) {
    forall x :: x in rows ==> scan(format(x)) == Some(x) && Record(format(x))
  }

  lemma PrintedAreRecords<T(!new)>(rows: seq<T>, format: T -> string, scan: string -> Option<T>)
    requires RowsReadable(rows, format, scan)
    ensures AllRecord(Printed(rows, format))
  {
    hide Record;
    var printed := Printed(rows, format);
    forall l | l in printed ensures Record(l) {
      var i :| 0 <= i < |printed| && printed[i] == l;
      assert rows[i] in rows;
    }
  }

  lemma SectionParts(count: string, rows: seq<string>, rest: seq<string>)
    ensures ([count] + rows + rest)[0] == count && ([count] + rows + rest)[1..] == rows + rest
    ensures Record(count) && AllRecord(rows) ==> AllRecord([count] + rows)
  {
    hide Record;
  }

  lemma {:induction false} SectionReadsBack<T(!new)>(tag: string, rows: seq<T>, maximum: nat, format: T -> string,
                                                     scan: string -> Option<T>, rest: seq<string>)
    requires tag != "" && (forall c :: c in tag ==> !IsSpace(c)) && tag[0] != 'X'
    requires |rows| <= maximum && Fits(|rows|) && RowsReadable(rows, format, scan)
    ensures TakeSection(Section(tag, Printed(rows, format)) + rest, tag, maximum, scan) == Done(rows, rest)
    ensures AllRecord(Section(tag, Printed(rows, format)))
  {
    hide ScanCount, CountLine, Record, AllRecord, TakeRows, Printed, RowsReadable;
    CountReadsBack(tag, |rows|);
    RowsScanBack(rows, format, scan, rest);
    PrintedAreRecords(rows, format, scan);
    assert |Printed(rows, format)| == |rows|;
    SectionParts(CountLine(tag, |rows|), Printed(rows, format), rest);
  }

  lemma RowsScanBack<T(!new)>(rows: seq<T>, format: T -> string, scan: string -> Option<T>, rest: seq<string>)
    requires RowsReadable(rows, format, scan)
    ensures TakeRows(Printed(rows, format) + rest, |rows|, scan, []) == Some((rows, rest))
  {
    hide TakeRows, Printed;
    RowsReadBack(rows, format, scan, [], rest);
    assert [] + rows == rows;
  }

  // ---- the round trip ----

  // Everything in the layout can be written down and is within the reader's limits.
  ghost predicate Writable(s: DockLayoutSnapshot, limits: Limits, codec: RealCodec) {
    && Fits(s.mainRoot) && FitsId(s.activePanel)
    && |s.panels| <= limits.maximumPanels && (forall p :: p in s.panels ==> PanelFits(p, limits))
    && |s.groups| <= limits.maximumGroups && (forall g :: g in s.groups ==> GroupFits(g, limits))
    && |s.nodes| <= limits.maximumNodes && (forall n :: n in s.nodes ==> NodeFits(n, codec))
    && |s.floatingHosts| <= limits.maximumFloatingHosts && (forall h :: h in s.floatingHosts ==> HostFits(h, codec, limits))
    && |s.autoHide| <= limits.maximumAutoHide && (forall e :: e in s.autoHide ==> EntryFits(e))
    && Fits(|s.panels|) && Fits(|s.groups|) && Fits(|s.nodes|) && Fits(|s.floatingHosts|) && Fits(|s.autoHide|)
  }

  function OuterLines(s: DockLayoutSnapshot, codec: RealCodec): seq<string> {
    Section("FC", Printed(s.floatingHosts, HostFormat(codec))) + (Section("AC", Printed(s.autoHide, EntryLine)) + ["E"])
  }

  function TableLines(s: DockLayoutSnapshot, codec: RealCodec): seq<string> {
    Section("PC", Printed(s.panels, PanelLine)) + (Section("GC", Printed(s.groups, GroupLine)) +
    (Section("NC", Printed(s.nodes, NodeFormat(codec))) + OuterLines(s, codec)))
  }

  lemma Regroup<T>(a: seq<T>, b: seq<T>, c: seq<T>, d: seq<T>, e: seq<T>, f: seq<T>)
    ensures a + b + c + d + e + f == a + (b + (c + (d + (e + f))))
  {}

  lemma SessionLinesNested(s: DockLayoutSnapshot, codec: RealCodec)
    ensures SessionLines(s, codec) == [HeaderLine()] + ([RootLine(s.mainRoot, s.activePanel)] + TableLines(s, codec))
  {
    hide Section, Printed, HeaderLine, RootLine;
    var head := [HeaderLine(), RootLine(s.mainRoot, s.activePanel)];
    var outer := Section("FC", Printed(s.floatingHosts, HostFormat(codec)));
    var hidden := Section("AC", Printed(s.autoHide, EntryLine));
    var nodes := Section("NC", Printed(s.nodes, NodeFormat(codec)));
    Regroup(head, Section("PC", Printed(s.panels, PanelLine)), Section("GC", Printed(s.groups, GroupLine)), nodes, outer, hidden + ["E"]);
    assert SessionLines(s, codec) ==
      head + Section("PC", Printed(s.panels, PanelLine)) + Section("GC", Printed(s.groups, GroupLine)) + nodes + outer + (hidden + ["E"]);
    assert head == [HeaderLine()] + [RootLine(s.mainRoot, s.activePanel)];
  }

  lemma OuterReadsBack(s: DockLayoutSnapshot, limits: Limits, codec: RealCodec)
    requires Writable(s, limits, codec)
    ensures TakeOuter(OuterLines(s, codec), limits, codec) == Done((s.floatingHosts, s.autoHide), [])
    ensures AllRecord(OuterLines(s, codec))
  {
    hide Section, TakeSection, Printed, Record, HostFits, EntryFits, AllRecord;
    var end := ["E"];
    assert AllRecord(end) by { EndIsRecord(); }
    forall e | e in s.autoHide ensures EntryScan()(EntryLine(e)) == Some(e) && Record(EntryLine(e)) { EntryReadsBack(e); }
    SectionReadsBack("AC", s.autoHide, limits.maximumAutoHide, EntryLine, EntryScan(), end);
    AllRecordConcat(Section("AC", Printed(s.autoHide, EntryLine)), end);
    forall h | h in s.floatingHosts ensures HostScan(codec, limits)(HostFormat(codec)(h)) == Some(h) && Record(HostFormat(codec)(h)) {
      HostReadsBack(h, codec, limits);
    }
    SectionReadsBack("FC", s.floatingHosts, limits.maximumFloatingHosts, HostFormat(codec), HostScan(codec, limits),
                     Section("AC", Printed(s.autoHide, EntryLine)) + end);
    AllRecordConcat(Section("FC", Printed(s.floatingHosts, HostFormat(codec))), Section("AC", Printed(s.autoHide, EntryLine)) + end);
  }

  lemma TableReadsBack(s: DockLayoutSnapshot, limits: Limits, codec: RealCodec)
    requires Writable(s, limits, codec) && AllRecord(OuterLines(s, codec))
    ensures TakeTable(TableLines(s, codec), limits, codec) == Done((s.panels, s.groups, s.nodes), OuterLines(s, codec))
    ensures AllRecord(TableLines(s, codec))
  {
    hide Section, TakeSection, Printed, Record, PanelFits, GroupFits, NodeFits, AllRecord, OuterLines;
    var outer := OuterLines(s, codec);
    forall n | n in s.nodes ensures NodeScan(codec)(NodeFormat(codec)(n)) == Some(n) && Record(NodeFormat(codec)(n)) {
      NodeReadsBack(n, codec);
    }
    SectionReadsBack("NC", s.nodes, limits.maximumNodes, NodeFormat(codec), NodeScan(codec), outer);
    var nodes := Section("NC", Printed(s.nodes, NodeFormat(codec)));
    AllRecordConcat(nodes, outer);
    forall g | g in s.groups ensures GroupScan(limits)(GroupLine(g)) == Some(g) && Record(GroupLine(g)) { GroupReadsBack(g, limits); }
    SectionReadsBack("GC", s.groups, limits.maximumGroups, GroupLine, GroupScan(limits), nodes + outer);
    var groups := Section("GC", Printed(s.groups, GroupLine));
    AllRecordConcat(groups, nodes + outer);
    forall p | p in s.panels ensures PanelScan(limits)(PanelLine(p)) == Some(p) && Record(PanelLine(p)) { PanelReadsBack(p, limits); }
    SectionReadsBack("PC", s.panels, limits.maximumPanels, PanelLine, PanelScan(limits), groups + (nodes + outer));
    AllRecordConcat(Section("PC", Printed(s.panels, PanelLine)), groups + (nodes + outer));
  }

  lemma BodyReadsBack(s: DockLayoutSnapshot, limits: Limits, codec: RealCodec)
    requires Writable(s, limits, codec)
    ensures var body := [RootLine(s.mainRoot, s.activePanel)] + TableLines(s, codec);
            TakeBody(body, limits, codec) == Done(s, []) && AllRecord(body)
  {
    hide RootFields, RootLine, Whole, TableLines, OuterLines, TakeTable, TakeOuter, AllRecord, Record;
    RootReadsBack(s.mainRoot, s.activePanel);
    OuterReadsBack(s, limits, codec);
    TableReadsBack(s, limits, codec);
    var root := [RootLine(s.mainRoot, s.activePanel)];
    assert (root + TableLines(s, codec))[1..] == TableLines(s, codec);
    assert AllRecord(root) by { OneRecord(RootLine(s.mainRoot, s.activePanel)); }
    AllRecordConcat(root, TableLines(s, codec));
  }

  // What reading makes of the text of a layout that is within the limits: the layout, unless a title or key is not well
  // formed or the text has become too long.
  ghost function ReadBack(s: DockLayoutSnapshot, text: string, limits: Limits): Read<DockingSessionStatus, DockLayoutSnapshot> {
    if !TextsWellFormed(s) || TooLong(text) then Failed(Malformed)
    else if !SizeOk(text, limits.maximumBytes) then Failed(Oversized)
    else Done(s, [])
  }

  // Serializing then reading gives back exactly the layout that was written.
  lemma SessionRoundTrip(s: DockLayoutSnapshot, limits: Limits, codec: RealCodec)
    requires Writable(s, limits, codec)
    ensures var text := Unlines(SessionLines(s, codec)); ReadSession(text, limits, codec) == ReadBack(s, text, limits)
  {
    hide Writable, TakeBody, Lines, Records, Unlines, ScanHeader, HeaderLine, RootLine, TableLines, AllRecord, SessionLines,
      TextsWellFormed, WellFormed, TooLong;
    var body := [RootLine(s.mainRoot, s.activePanel)] + TableLines(s, codec);
    SessionLinesNested(s, codec);
    UnlinesFirst(HeaderLine(), body);
    HeaderReadsBack();
    BodyReadsBack(s, limits, codec);
    RecordsOnly(body);
    HeaderThenBody(HeaderLine(), Unlines(body));
    assert NumbersFaithful(s, codec) by { WritableNumbers(s, limits, codec); }
    SessionWellFormed(s, codec);
  }

  lemma WritableNumbers(s: DockLayoutSnapshot, limits: Limits, codec: RealCodec)
    requires Writable(s, limits, codec)
    ensures NumbersFaithful(s, codec)
  {
    hide Faithful;
  }

  // ---- with the default limits ----

  // What a layout holds that validity does not speak of: words of 64 bits and finite numbers.
  ghost predicate Representable(s: DockLayoutSnapshot, codec: RealCodec) {
    && Fits(s.mainRoot)
    && (forall p :: p in s.panels ==> Fits(p.id))
    && (forall g :: g in s.groups ==> Fits(g.id))
    && (forall n :: n in s.nodes ==> NodeFits(n, codec))
    && (forall h :: h in s.floatingHosts ==> Fits(h.id) && Fits(h.root) && PlacementFaithful(codec, h.placement))
    && (forall e :: e in s.autoHide ==> EntryFits(e))
  }

  lemma PlacedPanel(s: DockLayoutSnapshot, g: DockGroup)
    requires PanelsPartitioned(s) && g in s.groups
    ensures |g.panels| <= |s.panels| && forall x :: x in g.panels ==> x in PanelIds(s.panels)
  {
    var i :| 0 <= i < |s.groups| && s.groups[i] == g;
    hide Placed, PanelIds, HiddenPanels;
    PlacedSplit(s.groups, i);
    MiddlePart(Placed(s.groups[..i]), g.panels, Placed(s.groups[i + 1..]), HiddenPanels(s.autoHide));
    SameCountsSameLength(Placements(s), PanelIds(s.panels));
    SameMembers(Placements(s), PanelIds(s.panels));
    assert |PanelIds(s.panels)| == |s.panels| by { PanelIdsSize(s.panels); }
  }

  lemma PanelIdsSize(panels: seq<DockPanel>)
    ensures |PanelIds(panels)| == |panels|
  {}

  lemma MiddlePart(a: seq<nat>, b: seq<nat>, c: seq<nat>, d: seq<nat>)
    ensures |b| <= |a + b + c + d| && forall x :: x in b ==> x in a + b + c + d
  {}

  lemma PanelIdFits(s: DockLayoutSnapshot, codec: RealCodec, id: nat)
    requires Representable(s, codec) && UsableIds(PanelIds(s.panels)) && id in PanelIds(s.panels)
    ensures 0 < id && Fits(id)
  {
    var i :| 0 <= i < |s.panels| && PanelIds(s.panels)[i] == id;
    assert s.panels[i] in s.panels;
  }

  lemma GroupsFit(s: DockLayoutSnapshot, codec: RealCodec, g: DockGroup)
    requires ValidSnapshot(s) && Representable(s, codec) && g in s.groups
    ensures GroupFits(g, DEFAULT_LIMITS)
  {
    hide HasForest, TableOk, Placements, PanelsPartitioned, UsableIds, PanelIds, NodeFits, HostFits;
    PlacedPanel(s, g);
    forall x | x in g.panels ensures 0 < x && Fits(x) { PanelIdFits(s, codec, x); }
  }

  // A valid layout with its texts on one line is within the default limits: only its size in bytes can still be too large.
  lemma ValidIsWritable(s: DockLayoutSnapshot, codec: RealCodec)
    requires ValidSnapshot(s) && Representable(s, codec) && TextsOneLine(s)
    ensures Writable(s, DEFAULT_LIMITS, codec)
  {
    hide HasForest, NodesOk, PanelsPartitioned, UsableIds, PanelIds, NodeFits, Faithful, OneLine, GroupFits, SelectionOk, RolesOk;
    forall g | g in s.groups ensures GroupFits(g, DEFAULT_LIMITS) { GroupsFit(s, codec, g); }
    forall h | h in s.floatingHosts ensures HostFits(h, codec, DEFAULT_LIMITS) { assert ValidPlacement(h.placement); }
    if s.activePanel.Some? { PanelIdFits(s, codec, s.activePanel.value); }
  }

  // A valid layout survives saving and loading unchanged exactly when its titles and keys are well formed and on one line
  // and the text fits into the file.
  lemma ValidRoundTrip(s: DockLayoutSnapshot, codec: RealCodec)
    requires ValidSnapshot(s) && Representable(s, codec) && StaysOnLine(codec)
    ensures var text := Unlines(SessionLines(s, codec));
            && (TextsOneLine(s) ==> ReadSession(text, DEFAULT_LIMITS, codec) == ReadBack(s, text, DEFAULT_LIMITS))
            && (ReadSession(text, DEFAULT_LIMITS, codec) == Done(s, []) <==>
                  TextsOneLine(s) && TextsWellFormed(s) && !TooLong(text) && SizeOk(text, DEFAULT_LIMITS.maximumBytes))
  {
    hide ValidSnapshot, Representable, Writable, ReadSession, SizeOk, SessionLines, TextsOneLine, TextsWellFormed, TooLong,
      StaysOnLine;
    var text := Unlines(SessionLines(s, codec));
    if TextsOneLine(s) {
      ValidIsWritable(s, codec);
      SessionRoundTrip(s, DEFAULT_LIMITS, codec);
    } else if ReadSession(text, DEFAULT_LIMITS, codec).Done? {
      AcceptedOneLine(text, DEFAULT_LIMITS, codec);
    }
  }

  // ---- lines of newer writers ----

  // Text that ends a line, followed by more.
  lemma {:induction false} LinesConcat(a: string, b: string)
    requires a == "" || a[|a| - 1] == '\n'
    ensures Lines(a + b) == Lines(a) + Lines(b)
    decreases |a|
  {
    hide Lines;
    if a == "" {
      assert a + b == b && Lines(a) == [] by { NoLines(); }
    } else {
      var k := LineEnd(a);
      LineEndInside(a);
      var line, rest := a[..k], a[k + 1..];
      assert a == line + ['\n'] + rest;
      LinesConcat(rest, b);
      FirstLine(line, rest);
      FirstLine(line, rest + b);
      assert a + b == line + ['\n'] + (rest + b);
    }
  }

  lemma NoLines()
    ensures Lines("") == []
  {}

  lemma LineEndInside(a: string)
    requires a != "" && a[|a| - 1] == '\n'
    ensures LineEnd(a) < |a| && AfterLine(a) == a[LineEnd(a) + 1..] && a[..LineEnd(a)] + ['\n'] + AfterLine(a) == a
    ensures OneLine(a[..LineEnd(a)])
    ensures AfterLine(a) == "" || AfterLine(a)[|AfterLine(a)| - 1] == '\n'
  {
    hide LineEnd;
    var k := LineEnd(a);
    assert a[..|a|] == a && a[|a| - 1] in a;
    assert a[..k] + ['\n'] + a[k + 1..] == a;
  }

  // Lines starting with "X " after the header change nothing, wherever they stand and however many they are,
  // as long as the file stays within its size.
  lemma ExtensionsAreIgnored(header: string, before: string, extensions: seq<string>, after: string, limits: Limits, codec: RealCodec)
    requires OneLine(header) && (before == "" || before[|before| - 1] == '\n')
    requires forall l :: l in extensions ==> OneLine(l) && Extension(l)
    requires SizeOk(header + ['\n'] + (before + (Unlines(extensions) + after)), limits.maximumBytes)
    ensures ReadSession(header + ['\n'] + (before + (Unlines(extensions) + after)), limits, codec) ==
            ReadSession(header + ['\n'] + (before + after), limits, codec)
  {
    hide TakeBody, Lines, Records, Unlines, ScanHeader, Extension, SizeOk, Utf8Size;
    HeaderThenBody(header, before + (Unlines(extensions) + after));
    HeaderThenBody(header, before + after);
    UnlinesEnds(extensions);
    SizeWithout(header + ['\n'], before, Unlines(extensions), after, limits);
    SizeKnown(header + ['\n'] + (before + after), limits.maximumBytes);
    SizeKnown(header + ['\n'] + (before + (Unlines(extensions) + after)), limits.maximumBytes);
    LinesConcat(before, Unlines(extensions) + after);
    LinesConcat(before, after);
    LinesOfUnlines(extensions, after);
    NoRecords(extensions);
    RecordsConcat(Lines(before), Lines(after));
    RecordsConcat(Lines(before), extensions + Lines(after));
    RecordsConcat(extensions, Lines(after));
    assert [] + Records(Lines(after)) == Records(Lines(after));
  }

  // Nothing at all, or whole lines.
  predicate EndsLine(s: string) { s == "" || s[|s| - 1] == '\n' }

  lemma {:induction false} UnlinesEnds(lines: seq<string>)
    ensures EndsLine(Unlines(lines))
  {
    if lines == [] {
    } else {
      UnlinesEnds(lines[1..]);
    }
  }

  // Whole lines in front of a text make it no smaller.
  lemma LinesInFront(a: string, b: string)
    requires EndsLine(a) && Utf8Size(a + b).Some?
    ensures Utf8Size(a).Some? && Utf8Size(b).Some? && Utf8Size(a + b).value == Utf8Size(a).value + Utf8Size(b).value
  {
    hide Utf8Size, SeamOk;
    AsciiSeam(a, b);
    SizeConcat(a, b);
  }

  lemma SizeWithout(header: string, before: string, more: string, after: string, limits: Limits)
    requires EndsLine(header) && EndsLine(before) && EndsLine(more)
    requires SizeOk(header + (before + (more + after)), limits.maximumBytes)
    ensures SizeOk(header + (before + after), limits.maximumBytes)
  {
    hide WellFormed, EndsLine;
    LinesInFront(header, before + (more + after));
    LinesInFront(before, more + after);
    LinesInFront(more, after);
    BehindLines(before, after);
    BehindLines(header, before + after);
  }

  lemma BehindLines(a: string, b: string)
    requires EndsLine(a) && Utf8Size(a).Some? && Utf8Size(b).Some?
    requires |a + b| <= TextEncoding.MAX_INT && Utf8Size(a).value + Utf8Size(b).value <= TextEncoding.MAX_INT
    ensures Utf8Size(a + b) == Some(Utf8Size(a).value + Utf8Size(b).value)
  {
    hide Utf8Size, SeamOk;
    AsciiSeam(a, b);
    SizeConcat(a, b);
  }

  // ---- a faithful format ----

  // Millionths, written as an integer with an exponent.
  function FixedFormat(r: real): string {
    var m := (r * 1000000.0).Floor;
    if m < 0 then ['-'] + (NatText(-m) + "e-6") else NatText(m) + "e-6"
  }

  function FixedScan(s: string): Scanned<real> {
    var t := SkipSpace(s);
    var negative := t != "" && t[0] == '-';
    var u := if negative then t[1..] else t;
    if u == "" || !IsDigit(u[0]) then Bad
    else
      var (value, rest) := ScanDigits(u, 0);
      var m: int := if negative then -(value as int) else value;
      if "e-6" <= rest then Good(m as real / 1000000.0, rest[3..]) else Bad
  }

  // So the assumption on the number format can be met: by this one, for every whole number of millionths.
  lemma FixedPointIsFaithful(m: int)
    ensures Faithful(RealCodec(FixedFormat, FixedScan), m as real / 1000000.0) && StaysOnLine(RealCodec(FixedFormat, FixedScan))
  {
    hide SkipSpace, NatText, ScanDigits, Field;
    var r := m as real / 1000000.0;
    var n: nat := if m < 0 then -m else m;
    assert (r * 1000000.0).Floor == m;
    var text := FixedFormat(r);
    FixedIsWellFormed(r);
    forall s | OneLine(s) && FixedScan(s).Good? ensures OneLine(FixedScan(s).rest) { FixedStaysOnLine(s); }
    NatTextOneLine(n);
    NatTextStarts(n);
    forall rest | FieldEnd(rest) ensures FixedScan(Field(text, rest)) == Good(r, rest) {
      FieldStart(text, rest);
      DigitsScanBack(n, "e-6" + rest);
      assert NatText(n) + "e-6" + rest == NatText(n) + ("e-6" + rest);
      ScanDigitsStops("e-6" + rest, n);
      if m < 0 {
        assert (text + rest)[1..] == NatText(n) + ("e-6" + rest);
      } else {
        assert text + rest == NatText(n) + ("e-6" + rest);
      }
      assert ("e-6" + rest)[3..] == rest;
    }
  }

  lemma FixedStaysOnLine(s: string)
    requires OneLine(s) && FixedScan(s).Good?
    ensures OneLine(FixedScan(s).rest)
  {
    hide SkipSpace, ScanDigits;
    SkipSpaceOneLine(s);
    var t := SkipSpace(s);
    TailOneLine(t, 1);
    DigitsOneLine(if t[0] == '-' then t[1..] else t, 0);
  }

  lemma FixedIsWellFormed(r: real)
    ensures WellFormed(FixedFormat(r))
  {
    var m := (r * 1000000.0).Floor;
    NatIsAscii(if m < 0 then -m else m);
    AsciiIsWellFormed(FixedFormat(r));
  }

  lemma ScanDigitsStops(s: string, value: nat)
    requires s == "" || !IsDigit(s[0])
    ensures ScanDigits(s, value) == (value, s)
  {}
}
