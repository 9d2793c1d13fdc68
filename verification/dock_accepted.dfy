// The titles and monitor keys of a docking session that is accepted are on one line.
module DockAccepted {
  import opened Basics
  import opened DockTypes
  import opened SessionText
  import opened SessionScanning
  import opened DockSession

  ghost predicate TextsOneLine(s: DockLayoutSnapshot) {
    && (forall p :: p in s.panels ==> OneLine(p.title))
    && (forall h :: h in s.floatingHosts ==> OneLine(h.placement.monitorKey))
  }

  lemma PanelOneLine(line: string, limits: Limits)
    requires OneLine(line)
    ensures PanelScan(limits)(line).Some? ==> OneLine(PanelScan(limits)(line).value.title)
  {
    hide OneLine, ScanChar, ScanUnsigned, ScanBool, ScanQuoted, Finished;
    if PanelFields(line, limits).Good? {
      CharOneLine(line);
      var s0 := ScanChar(line).rest;
      UnsignedOneLine(s0, MAX_U64);
      var s1 := ScanUnsigned(s0, MAX_U64).rest;
      UnsignedOneLine(s1, MAX_U32);
      var s2 := ScanUnsigned(s1, MAX_U32).rest;
      BoolOneLine(s2);
      ScannedQuoteOneLine(ScanBool(s2).rest);
    }
  }

  lemma HostOneLine(line: string, codec: RealCodec, limits: Limits)
    requires OneLine(line) && StaysOnLine(codec)
    ensures HostScan(codec, limits)(line).Some? ==> OneLine(HostScan(codec, limits)(line).value.placement.monitorKey)
  {
    hide OneLine, ScanChar, ScanUnsigned, ScanQuoted, Finished;
    if HostFields(codec, line, limits).Good? {
      CharOneLine(line);
      var s0 := ScanChar(line).rest;
      UnsignedOneLine(s0, MAX_U64);
      var s1 := ScanUnsigned(s0, MAX_U64).rest;
      UnsignedOneLine(s1, MAX_U64);
      var s2 := ScanUnsigned(s1, MAX_U64).rest;
      var s3 := codec.scan(s2).rest;
      var s4 := codec.scan(s3).rest;
      var s5 := codec.scan(s4).rest;
      assert OneLine(s3) && OneLine(s4) && OneLine(s5);
      ScannedQuoteOneLine(codec.scan(s5).rest);
    }
  }

  lemma SectionOneLine<T>(lines: seq<string>, tag: string, maximum: nat, scan: string -> Option<T>, ok: T -> bool)
    requires AllOneLine(lines)
    requires forall l :: OneLine(l) && scan(l).Some? ==> ok(scan(l).value)
    ensures var r := TakeSection(lines, tag, maximum, scan);
            r.Done? ==> AllOneLine(r.rest) && forall x :: x in r.value ==> ok(x)
  {
    hide OneLine, AllOneLine, TakeRows, ScanCount;
    if lines != [] {
      RestOneLine(lines);
      if ScanCount(lines[0], tag).Some? { RowsOneLine(lines[1..], ScanCount(lines[0], tag).value, scan, [], ok); }
    }
  }

  lemma TableOneLine(lines: seq<string>, limits: Limits, codec: RealCodec)
    requires AllOneLine(lines)
    ensures var r := TakeTable(lines, limits, codec);
            r.Done? ==> AllOneLine(r.rest) && forall p :: p in r.value.0 ==> OneLine(p.title)
  {
    hide OneLine, AllOneLine, TakeSection, PanelScan, GroupScan, NodeScan;
    forall l | OneLine(l) ensures PanelScan(limits)(l).Some? ==> OneLine(PanelScan(limits)(l).value.title) { PanelOneLine(l, limits); }
    SectionOneLine(lines, "PC", limits.maximumPanels, PanelScan(limits), (p: DockPanel) => OneLine(p.title));
    var panels := TakeSection(lines, "PC", limits.maximumPanels, PanelScan(limits));
    if panels.Done? {
      SectionOneLine(panels.rest, "GC", limits.maximumGroups, GroupScan(limits), _ => true);
      var groups := TakeSection(panels.rest, "GC", limits.maximumGroups, GroupScan(limits));
      if groups.Done? { SectionOneLine(groups.rest, "NC", limits.maximumNodes, NodeScan(codec), _ => true); }
    }
  }

  lemma OuterOneLine(lines: seq<string>, limits: Limits, codec: RealCodec)
    requires AllOneLine(lines) && StaysOnLine(codec)
    ensures var r := TakeOuter(lines, limits, codec);
            r.Done? ==> forall h :: h in r.value.0 ==> OneLine(h.placement.monitorKey)
  {
    hide OneLine, AllOneLine, TakeSection, HostScan, StaysOnLine;
    forall l | OneLine(l)
      ensures HostScan(codec, limits)(l).Some? ==> OneLine(HostScan(codec, limits)(l).value.placement.monitorKey)
    {
      HostOneLine(l, codec, limits);
    }
    SectionOneLine(lines, "FC", limits.maximumFloatingHosts, HostScan(codec, limits),
                   (h: DockFloatingHost) => OneLine(h.placement.monitorKey));
  }

  // Whatever is accepted, valid or not.
  lemma AcceptedOneLine(text: string, limits: Limits, codec: RealCodec)
    requires StaysOnLine(codec) && ReadSession(text, limits, codec).Done?
    ensures TextsOneLine(ReadSession(text, limits, codec).value)
  {
    hide OneLine, Lines, Records, TakeTable, TakeOuter, ScanHeader, StaysOnLine, RootFields, AllOneLine;
    var body := Records(Lines(AfterLine(text)));
    LinesOneLine(AfterLine(text));
    RecordsOneLine(Lines(AfterLine(text)));
    assert TakeBody(body, limits, codec).Done?;
    RestOneLine(body);
    TableOneLine(body[1..], limits, codec);
    var table := TakeTable(body[1..], limits, codec);
    OuterOneLine(table.rest, limits, codec);
  }
}
