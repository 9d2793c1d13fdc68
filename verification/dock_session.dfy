// Writing a docking layout as text and reading it back.
module DockSession {
  import opened Basics
  import opened DockTypes
  import opened DockValidate
  import opened UnitText
  import opened SessionText

  datatype DockingSessionStatus = Loaded | UnsupportedVersion | Malformed | Oversized | DuplicateIdentity | BadGraph

  datatype Limits = Limits(maximumBytes: nat, maximumPanels: nat, maximumGroups: nat, maximumNodes: nat,
                           maximumFloatingHosts: nat, maximumAutoHide: nat, maximumStringUnits: nat)

  const DEFAULT_LIMITS := Limits(4 * 1024 * 1024, 4096, 4096, 8192, 1024, 4096, 32 * 1024)
  const SCHEMA_VERSION: nat := 1
  const MAGIC := "MWFL_DOCK_LAYOUT"

  // ---- codes of the enumerations and of the empty id ----

  function PanelRoleCode(role: DockPanelRole): nat { if role == DocumentPanel then 0 else 1 }
  function GroupRoleCode(role: DockGroupRole): nat { if role == DocumentGroup then 0 else 1 }
  function KindCode(kind: DockNodeKind): nat { if kind == GroupNode then 0 else 1 }
  function OrientationCode(o: DockSplitOrientation): nat { if o == Vertical then 0 else 1 }
  function EdgeCode(edge: DockEdge): nat {
    match edge case LeftEdge => 0 case TopEdge => 1 case RightEdge => 2 case BottomEdge => 3
  }
  function EdgeOf(code: nat): DockEdge {
    if code == 0 then LeftEdge else if code == 1 then TopEdge else if code == 2 then RightEdge else BottomEdge
  }

  // ---- one record of each kind ----

  function HeaderLine(): string { MAGIC + Field(NatText(SCHEMA_VERSION), "") }

  function ScanHeader(line: string): Option<nat> {
    match ScanWord(line)
    case Bad => None
    case Good(word, s) =>
      match ScanUnsigned(s, MAX_U32)
      case Bad => None
      case Good(version, rest) => if word != MAGIC || !Finished(rest) then None else Some(version)
  }

  function RootLine(root: nat, active: Option<nat>): string {
    ['R'] + Field(NatText(root), Field(NatText(IdOrZero(active)), ""))
  }

  function RootFields(line: string): Scanned<(nat, Option<nat>)> {
    var (tag, s0) :- ScanChar(line);
    var (root, s1) :- ScanUnsigned(s0, MAX_U64);
    var (active, s2) :- ScanUnsigned(s1, MAX_U64);
    if tag != 'R' then Bad else Good((root, IdOf(active)), s2)
  }

  function CountLine(tag: string, n: nat): string { tag + Field(NatText(n), "") }

  function ScanCount(line: string, expected: string): Option<nat> {
    match ScanWord(line)
    case Bad => None
    case Good(tag, s) =>
      match ScanUnsigned(s, MAX_U64)
      case Bad => None
      case Good(count, rest) => if tag != expected || !Finished(rest) then None else Some(count)
  }

  function PanelLine(p: DockPanel): string {
    ['P'] + Field(NatText(p.id), Field(NatText(PanelRoleCode(p.role)), Field(BoolText(p.closable), Field(Quoted(p.title), ""))))
  }

  function PanelFields(line: string, limits: Limits): Scanned<DockPanel> {
    var (tag, s0) :- ScanChar(line);
    var (id, s1) :- ScanUnsigned(s0, MAX_U64);
    var (role, s2) :- ScanUnsigned(s1, MAX_U32);
    var (closable, s3) :- ScanBool(s2);
    var (title, s4) :- ScanQuoted(s3);
    if tag != 'P' || role > 1 || |title| > limits.maximumStringUnits then Bad
    else Good(DockPanel(id, title, if role == 0 then DocumentPanel else ToolPanel, closable), s4)
  }

  function IdFields(ids: seq<nat>): string {
    if ids == [] then "" else Field(NatText(ids[0]), IdFields(ids[1..]))
  }

  function ScanIds(s: string, n: nat): Scanned<seq<nat>>
    decreases n
  {
    if n == 0 then Good([], s)
    else
      var (id, s0) :- ScanUnsigned(s, MAX_U64);
      var (ids, s1) :- ScanIds(s0, n - 1);
      Good([id] + ids, s1)
  }

  function GroupLine(g: DockGroup): string {
    ['G'] + Field(NatText(g.id), Field(NatText(GroupRoleCode(g.role)), Field(NatText(IdOrZero(g.active)),
      Field(NatText(|g.panels|), IdFields(g.panels)))))
  }

  function GroupFields(line: string, limits: Limits): Scanned<DockGroup> {
    var (tag, s0) :- ScanChar(line);
    var (id, s1) :- ScanUnsigned(s0, MAX_U64);
    var (role, s2) :- ScanUnsigned(s1, MAX_U32);
    var (active, s3) :- ScanUnsigned(s2, MAX_U64);
    var (count, s4) :- ScanUnsigned(s3, MAX_U64);
    if tag != 'G' || role > 1 || count > limits.maximumPanels then Bad
    else
      var (panels, s5) :- ScanIds(s4, count);
      Good(DockGroup(id, if role == 0 then DocumentGroup else ToolGroup, panels, IdOf(active)), s5)
  }

  function NodeLine(codec: RealCodec, n: DockNode): string {
    ['N'] + Field(NatText(n.id), Field(NatText(KindCode(n.kind)), Field(NatText(n.group), Field(NatText(OrientationCode(n.orientation)),
      Field(NatText(n.first), Field(NatText(n.second), Field(codec.format(n.ratio), "")))))))
  }

  function NodeFields(codec: RealCodec, line: string): Scanned<DockNode> {
    var (tag, s0) :- ScanChar(line);
    var (id, s1) :- ScanUnsigned(s0, MAX_U64);
    var (kind, s2) :- ScanUnsigned(s1, MAX_U32);
    var (group, s3) :- ScanUnsigned(s2, MAX_U64);
    var (orientation, s4) :- ScanUnsigned(s3, MAX_U32);
    var (first, s5) :- ScanUnsigned(s4, MAX_U64);
    var (second, s6) :- ScanUnsigned(s5, MAX_U64);
    var (ratio, s7) :- codec.scan(s6);
    if tag != 'N' || kind > 1 || orientation > 1 then Bad
    else Good(DockNode(id, if kind == 0 then GroupNode else SplitNode, group,
                       if orientation == 0 then Vertical else Horizontal, first, second, ratio), s7)
  }

  function HostLine(codec: RealCodec, h: DockFloatingHost): string {
    var p := h.placement;
    ['F'] + Field(NatText(h.id), Field(NatText(h.root), Field(codec.format(p.x), Field(codec.format(p.y),
      Field(codec.format(p.width), Field(codec.format(p.height), Field(Quoted(p.monitorKey), "")))))))
  }

  function HostFields(codec: RealCodec, line: string, limits: Limits): Scanned<DockFloatingHost> {
    var (tag, s0) :- ScanChar(line);
    var (id, s1) :- ScanUnsigned(s0, MAX_U64);
    var (root, s2) :- ScanUnsigned(s1, MAX_U64);
    var (x, s3) :- codec.scan(s2);
    var (y, s4) :- codec.scan(s3);
    var (width, s5) :- codec.scan(s4);
    var (height, s6) :- codec.scan(s5);
    var (key, s7) :- ScanQuoted(s6);
    if tag != 'F' || |key| > limits.maximumStringUnits then Bad
    else Good(DockFloatingHost(id, root, DockFloatingPlacement(x, y, width, height, key)), s7)
  }

  function EntryLine(e: DockAutoHideEntry): string {
    ['A'] + Field(NatText(e.panel), Field(NatText(EdgeCode(e.edge)), Field(NatText(e.order), "")))
  }

  function EntryFields(line: string): Scanned<DockAutoHideEntry> {
    var (tag, s0) :- ScanChar(line);
    var (panel, s1) :- ScanUnsigned(s0, MAX_U64);
    var (edge, s2) :- ScanUnsigned(s1, MAX_U32);
    var (order, s3) :- ScanUnsigned(s2, MAX_U64);
    if tag != 'A' || edge > 3 then Bad else Good(DockAutoHideEntry(panel, EdgeOf(edge), order), s3)
  }

  function NodeFormat(codec: RealCodec): DockNode -> string { n => NodeLine(codec, n) }
  function HostFormat(codec: RealCodec): DockFloatingHost -> string { h => HostLine(codec, h) }

  function PanelScan(limits: Limits): string -> Option<DockPanel> { line => Whole(PanelFields(line, limits)) }
  function GroupScan(limits: Limits): string -> Option<DockGroup> { line => Whole(GroupFields(line, limits)) }
  function NodeScan(codec: RealCodec): string -> Option<DockNode> { line => Whole(NodeFields(codec, line)) }
  function HostScan(codec: RealCodec, limits: Limits): string -> Option<DockFloatingHost> {
    line => Whole(HostFields(codec, line, limits))
  }
  function EntryScan(): string -> Option<DockAutoHideEntry> { line => Whole(EntryFields(line)) }

  // ---- the whole file ----

  function Section(tag: string, rows: seq<string>): seq<string> { [CountLine(tag, |rows|)] + rows }

  function SessionLines(s: DockLayoutSnapshot, codec: RealCodec): seq<string> {
    [HeaderLine(), RootLine(s.mainRoot, s.activePanel)]
    + Section("PC", Printed(s.panels, PanelLine))
    + Section("GC", Printed(s.groups, GroupLine))
    + Section("NC", Printed(s.nodes, NodeFormat(codec)))
    + Section("FC", Printed(s.floatingHosts, HostFormat(codec)))
    + Section("AC", Printed(s.autoHide, EntryLine))
    + ["E"]
  }

  function TakeSection<T>(lines: seq<string>, tag: string, maximum: nat, scan: string -> Option<T>): Read<DockingSessionStatus, seq<T>> {
    if lines == [] || ScanCount(lines[0], tag).None? then Failed(Malformed)
    else
      var n := ScanCount(lines[0], tag).value;
      if n > maximum then Failed(Oversized)
      else match TakeRows(lines[1..], n, scan, [])
        case None => Failed(Malformed)
        case Some(r) => Done(r.0, r.1)
  }

  function TakeTable(lines: seq<string>, limits: Limits, codec: RealCodec): Read<DockingSessionStatus, (seq<DockPanel>, seq<DockGroup>, seq<DockNode>)> {
    var (panels, l1) :- TakeSection(lines, "PC", limits.maximumPanels, PanelScan(limits));
    var (groups, l2) :- TakeSection(l1, "GC", limits.maximumGroups, GroupScan(limits));
    var (nodes, l3) :- TakeSection(l2, "NC", limits.maximumNodes, NodeScan(codec));
    Done((panels, groups, nodes), l3)
  }

  // The end mark, after which only empty records may come.
  predicate EndsHere(lines: seq<string>) {
    lines != [] && lines[0] == "E" && AllBlank(lines[1..])
  }

  function TakeOuter(lines: seq<string>, limits: Limits, codec: RealCodec): Read<DockingSessionStatus, (seq<DockFloatingHost>, seq<DockAutoHideEntry>)> {
    var (hosts, l1) :- TakeSection(lines, "FC", limits.maximumFloatingHosts, HostScan(codec, limits));
    var (hidden, l2) :- TakeSection(l1, "AC", limits.maximumAutoHide, EntryScan());
    if EndsHere(l2) then Done((hosts, hidden), []) else Failed(Malformed)
  }

  function TakeBody(lines: seq<string>, limits: Limits, codec: RealCodec): Read<DockingSessionStatus, DockLayoutSnapshot> {
    if lines == [] || Whole(RootFields(lines[0])).None? then Failed(Malformed)
    else
      var root := Whole(RootFields(lines[0])).value;
      var (t, l1) :- TakeTable(lines[1..], limits, codec);
      var (o, l2) :- TakeOuter(l1, limits, codec);
      Done(DockLayoutSnapshot(root.0, t.0, t.1, t.2, o.0, o.1, root.1), l2)
  }

  // The layout a text describes, before it is validated.
  function ReadSession(text: string, limits: Limits, codec: RealCodec): Read<DockingSessionStatus, DockLayoutSnapshot> {
    if Utf8Size(text).None? then Failed(Malformed)
    else if !SizeOk(text, limits.maximumBytes) then Failed(Oversized)
    else if text == "" then Failed(Malformed)
    else match ScanHeader(Lines(text)[0])
      case None => Failed(Malformed)
      case Some(version) =>
        if version > SCHEMA_VERSION then Failed(UnsupportedVersion)
        else TakeBody(Records(Lines(AfterLine(text))), limits, codec)
  }

  // ---- writing ----

  method AppendSection<T>(text: string, ghost before: seq<string>, tag: string, rows: seq<T>, format: T -> string)
    returns (longer: string)
    requires text == Unlines(before)
    ensures longer == Unlines(before + Section(tag, Printed(rows, format)))
  {
    hide Printed, CountLine;
    var body := WriteRows(rows, format);
    longer := text + CountLine(tag, |rows|) + ['\n'] + body;
    assert |Printed(rows, format)| == |rows|;
    UnlinesFirst(CountLine(tag, |rows|), Printed(rows, format));
    UnlinesConcat(before, Section(tag, Printed(rows, format)));
    assert text + (CountLine(tag, |rows|) + ['\n'] + body) == longer;
  }

  method SerializeDockingSession(s: DockLayoutSnapshot, codec: RealCodec) returns (text: string)
    ensures text == Unlines(SessionLines(s, codec))
  {
    hide Printed, Section, RootLine, HeaderLine, Unlines;
    ghost var lines := [HeaderLine(), RootLine(s.mainRoot, s.activePanel)];
    text := HeaderLine() + ['\n'] + (RootLine(s.mainRoot, s.activePanel) + ['\n']);
    TwoLines(HeaderLine(), RootLine(s.mainRoot, s.activePanel));
    text := AppendSection(text, lines, "PC", s.panels, PanelLine);
    lines := lines + Section("PC", Printed(s.panels, PanelLine));
    text := AppendSection(text, lines, "GC", s.groups, GroupLine);
    lines := lines + Section("GC", Printed(s.groups, GroupLine));
    text := AppendSection(text, lines, "NC", s.nodes, NodeFormat(codec));
    lines := lines + Section("NC", Printed(s.nodes, NodeFormat(codec)));
    text := AppendSection(text, lines, "FC", s.floatingHosts, HostFormat(codec));
    lines := lines + Section("FC", Printed(s.floatingHosts, HostFormat(codec)));
    text := AppendSection(text, lines, "AC", s.autoHide, EntryLine);
    lines := lines + Section("AC", Printed(s.autoHide, EntryLine));
    text := text + ("E" + ['\n']);
    UnlinesConcat(lines, ["E"]);
    OneLineFile("E");
  }

  // ---- reading ----

  method ReadSection<T>(text: string, tag: string, maximum: nat, scan: string -> Option<T>)
    returns (failure: Option<DockingSessionStatus>, rows: seq<T>, rest: string)
    ensures match TakeSection(Records(Lines(text)), tag, maximum, scan)
            case Failed(status) => failure == Some(status)
            case Done(r, l) => failure == None && rows == r && Records(Lines(rest)) == l
  {
    hide Lines, Records, ScanCount;
    rows := [];
    var line;
    line, rest := ReadRequiredLine(text);
    if line.None? { return Some(Malformed), rows, rest; }
    var count := ScanCount(line.value, tag);
    if count.None? { return Some(Malformed), rows, rest; }
    if count.value > maximum { return Some(Oversized), rows, rest; }
    var taken;
    taken, rest := ReadRows(rest, count.value, scan);
    if taken.None? { return Some(Malformed), rows, rest; }
    failure, rows := None, taken.value;
  }

  method ReadTable(text: string, limits: Limits, codec: RealCodec)
    returns (failure: Option<DockingSessionStatus>, t: (seq<DockPanel>, seq<DockGroup>, seq<DockNode>), rest: string)
    ensures match TakeTable(Records(Lines(text)), limits, codec)
            case Failed(status) => failure == Some(status)
            case Done(r, l) => failure == None && t == r && Records(Lines(rest)) == l
  {
    hide Lines, Records, TakeSection;
    t := ([], [], []);
    var panels, groups, nodes;
    failure, panels, rest := ReadSection(text, "PC", limits.maximumPanels, PanelScan(limits));
    if failure.Some? { return; }
    failure, groups, rest := ReadSection(rest, "GC", limits.maximumGroups, GroupScan(limits));
    if failure.Some? { return; }
    failure, nodes, rest := ReadSection(rest, "NC", limits.maximumNodes, NodeScan(codec));
    t := (panels, groups, nodes);
  }

  method ReadOuter(text: string, limits: Limits, codec: RealCodec)
    returns (failure: Option<DockingSessionStatus>, o: (seq<DockFloatingHost>, seq<DockAutoHideEntry>))
    ensures match TakeOuter(Records(Lines(text)), limits, codec)
            case Failed(status) => failure == Some(status)
            case Done(r, _) => failure == None && o == r
  {
    hide Lines, Records, TakeSection, EndsHere;
    o := ([], []);
    var hosts, hidden, rest;
    failure, hosts, rest := ReadSection(text, "FC", limits.maximumFloatingHosts, HostScan(codec, limits));
    if failure.Some? { return; }
    failure, hidden, rest := ReadSection(rest, "AC", limits.maximumAutoHide, EntryScan());
    if failure.Some? { return; }
    var ended := ReadEnd(rest);
    if !ended { return Some(Malformed), o; }
    o := (hosts, hidden);
  }

  method ReadEnd(text: string) returns (ok: bool)
    ensures ok <==> EndsHere(Records(Lines(text)))
  {
    hide Lines, Records;
    var end, rest := ReadRequiredLine(text);
    if end.None? || end.value != "E" { return false; }
    ok := OnlyBlankRecords(rest);
  }

  // Everything after the header, up to the validation of what was read.
  method ReadBody(text: string, limits: Limits, codec: RealCodec) returns (result: Read<DockingSessionStatus, DockLayoutSnapshot>)
    ensures match TakeBody(Records(Lines(text)), limits, codec)
            case Failed(status) => result == Failed(status)
            case Done(s, _) => result.Done? && result.value == s
  {
    hide Lines, Records, TakeTable, TakeOuter, RootFields, Whole;
    var first, rest := ReadRequiredLine(text);
    if first.None? { return Failed(Malformed); }
    var root := Whole(RootFields(first.value));
    if root.None? { return Failed(Malformed); }
    var failure, t, o;
    failure, t, rest := ReadTable(rest, limits, codec);
    if failure.Some? { return Failed(failure.value); }
    failure, o := ReadOuter(rest, limits, codec);
    if failure.Some? { return Failed(failure.value); }
    result := Done(DockLayoutSnapshot(root.value.0, t.0, t.1, t.2, o.0, o.1, root.value.1), []);
  }

  function GraphStatus(status: DockLayoutStatus): DockingSessionStatus {
    match status
    case Success => Loaded
    case DuplicateId => DuplicateIdentity
    case _ => BadGraph
  }

  method ParseDockingSession(text: string, limits: Limits, codec: RealCodec)
    returns (status: DockingSessionStatus, snapshot: Option<DockLayoutSnapshot>)
    ensures match ReadSession(text, limits, codec)
            case Failed(failure) => status == failure && snapshot == None
            case Done(s, _) =>
              status == GraphStatus(LayoutStatus(s)) && snapshot == if ValidSnapshot(s) then Some(s) else None
  {
    hide TakeBody, Lines, Records, ValidSnapshot, LayoutStatus, ScanHeader;
    snapshot := None;
    var size := Utf8Size(text);
    if size.None? { return Malformed, None; }
    if size.value > limits.maximumBytes { return Oversized, None; }
    if text == "" { return Malformed, None; }
    FirstOfLines(text);
    var version := ScanHeader(text[..LineEnd(text)]);
    if version.None? { return Malformed, None; }
    if version.value > SCHEMA_VERSION { return UnsupportedVersion, None; }
    var body := ReadBody(AfterLine(text), limits, codec);
    match body
    case Failed(failure) => status := failure;
    case Done(s, _) =>
      var graph := Validate(s);
      status := GraphStatus(graph);
      if graph == Success { snapshot := Some(s); }
  }

}
