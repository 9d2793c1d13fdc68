// The text of a docking session is well formed exactly when the titles and monitor keys in it are.
module DockEncoding {
  import opened Basics
  import opened DockTypes
  import opened UnitText
  import opened SessionText
  import opened SessionEncoding
  import opened DockSession

  ghost predicate TextsWellFormed(s: DockLayoutSnapshot) {
    && (forall p :: p in s.panels ==> WellFormed(p.title))
    && (forall h :: h in s.floatingHosts ==> WellFormed(h.placement.monitorKey))
  }

  ghost predicate PlacementFaithful(codec: RealCodec, p: DockFloatingPlacement) {
    Faithful(codec, p.x) && Faithful(codec, p.y) && Faithful(codec, p.width) && Faithful(codec, p.height)
  }

  ghost predicate NumbersFaithful(s: DockLayoutSnapshot, codec: RealCodec) {
    && (forall n :: n in s.nodes ==> Faithful(codec, n.ratio))
    && (forall h :: h in s.floatingHosts ==> PlacementFaithful(codec, h.placement))
  }

  // ---- lines ----

  lemma NothingBehind()
    ensures FieldEnd("") && WellFormed("")
  {
    AsciiIsWellFormed("");
  }

  lemma PanelWellFormed(p: DockPanel)
    ensures WellFormed(PanelLine(p)) <==> WellFormed(p.title)
  {
    hide WellFormed, Field, FieldEnd, NatText, BoolText, Quoted;
    NothingBehind();
    QuotedWellFormed(p.title);
    var f2 := Field(Quoted(p.title), "");
    FieldWellFormed(Quoted(p.title), "");
    BoolWellFormed(p.closable);
    var f1 := Field(BoolText(p.closable), f2);
    FieldWellFormed(BoolText(p.closable), f2);
    NatWellFormed(PanelRoleCode(p.role));
    var f0 := Field(NatText(PanelRoleCode(p.role)), f1);
    FieldWellFormed(NatText(PanelRoleCode(p.role)), f1);
    NatWellFormed(p.id);
    FieldWellFormed(NatText(p.id), f0);
    TagWellFormed(['P'], Field(NatText(p.id), f0));
  }

  lemma {:induction false} IdsWellFormed(ids: seq<nat>)
    ensures FieldEnd(IdFields(ids)) && WellFormed(IdFields(ids))
  {
    hide WellFormed, Field, FieldEnd, NatText;
    if ids == [] {
      NothingBehind();
    } else {
      IdsWellFormed(ids[1..]);
      NatFieldWellFormed(ids[0], IdFields(ids[1..]));
    }
  }

  lemma GroupWellFormed(g: DockGroup)
    ensures WellFormed(GroupLine(g))
  {
    hide WellFormed, Field, FieldEnd, NatText, IdFields;
    IdsWellFormed(g.panels);
    NatFieldWellFormed(|g.panels|, IdFields(g.panels));
    var f2 := Field(NatText(|g.panels|), IdFields(g.panels));
    NatFieldWellFormed(IdOrZero(g.active), f2);
    var f1 := Field(NatText(IdOrZero(g.active)), f2);
    NatFieldWellFormed(GroupRoleCode(g.role), f1);
    var f0 := Field(NatText(GroupRoleCode(g.role)), f1);
    NatFieldWellFormed(g.id, f0);
    TagWellFormed(['G'], Field(NatText(g.id), f0));
  }

  lemma NodeWellFormed(n: DockNode, codec: RealCodec)
    requires Faithful(codec, n.ratio)
    ensures WellFormed(NodeLine(codec, n))
  {
    hide WellFormed, Field, FieldEnd, NatText;
    NothingBehind();
    FieldWellFormed(codec.format(n.ratio), "");
    var f5 := Field(codec.format(n.ratio), "");
    NatFieldWellFormed(n.second, f5);
    var f4 := Field(NatText(n.second), f5);
    NatFieldWellFormed(n.first, f4);
    var f3 := Field(NatText(n.first), f4);
    NatFieldWellFormed(OrientationCode(n.orientation), f3);
    var f2 := Field(NatText(OrientationCode(n.orientation)), f3);
    NatFieldWellFormed(n.group, f2);
    var f1 := Field(NatText(n.group), f2);
    NatFieldWellFormed(KindCode(n.kind), f1);
    var f0 := Field(NatText(KindCode(n.kind)), f1);
    NatFieldWellFormed(n.id, f0);
    TagWellFormed(['N'], Field(NatText(n.id), f0));
  }

  lemma HostWellFormed(h: DockFloatingHost, codec: RealCodec)
    requires PlacementFaithful(codec, h.placement)
    ensures WellFormed(HostLine(codec, h)) <==> WellFormed(h.placement.monitorKey)
  {
    hide WellFormed, Field, FieldEnd, NatText, Quoted;
    var p := h.placement;
    NothingBehind();
    QuotedWellFormed(p.monitorKey);
    FieldWellFormed(Quoted(p.monitorKey), "");
    var f5 := Field(Quoted(p.monitorKey), "");
    FieldWellFormed(codec.format(p.height), f5);
    var f4 := Field(codec.format(p.height), f5);
    FieldWellFormed(codec.format(p.width), f4);
    var f3 := Field(codec.format(p.width), f4);
    FieldWellFormed(codec.format(p.y), f3);
    var f2 := Field(codec.format(p.y), f3);
    FieldWellFormed(codec.format(p.x), f2);
    var f1 := Field(codec.format(p.x), f2);
    NatWellFormed(h.root);
    FieldWellFormed(NatText(h.root), f1);
    var f0 := Field(NatText(h.root), f1);
    NatWellFormed(h.id);
    FieldWellFormed(NatText(h.id), f0);
    TagWellFormed(['F'], Field(NatText(h.id), f0));
  }

  lemma EntryWellFormed(e: DockAutoHideEntry)
    ensures WellFormed(EntryLine(e))
  {
    hide WellFormed, Field, FieldEnd, NatText;
    NothingBehind();
    NatFieldWellFormed(e.order, "");
    var f1 := Field(NatText(e.order), "");
    NatFieldWellFormed(EdgeCode(e.edge), f1);
    var f0 := Field(NatText(EdgeCode(e.edge)), f1);
    NatFieldWellFormed(e.panel, f0);
    TagWellFormed(['A'], Field(NatText(e.panel), f0));
  }

  lemma FrontWellFormed(root: nat, active: Option<nat>)
    ensures WellFormed(HeaderLine()) && WellFormed(RootLine(root, active)) && WellFormed("E")
  {
    hide WellFormed, Field, FieldEnd, NatText;
    NothingBehind();
    AsciiIsWellFormed("E");
    NatFieldWellFormed(SCHEMA_VERSION, "");
    TagWellFormed(MAGIC, Field(NatText(SCHEMA_VERSION), ""));
    NatFieldWellFormed(IdOrZero(active), "");
    var f := Field(NatText(IdOrZero(active)), "");
    NatFieldWellFormed(root, f);
    TagWellFormed(['R'], Field(NatText(root), f));
  }

  // ---- the whole file ----

  lemma SectionWellFormed(tag: string, rows: seq<string>)
    requires AllAscii(tag)
    ensures AllWellFormed(Section(tag, rows)) <==> AllWellFormed(rows)
  {
    hide WellFormed, Field, FieldEnd, NatText;
    NothingBehind();
    NatFieldWellFormed(|rows|, "");
    TagWellFormed(tag, Field(NatText(|rows|), ""));
    AllWellFormedConcat([CountLine(tag, |rows|)], rows);
  }

  lemma RowsWellFormed(s: DockLayoutSnapshot, codec: RealCodec)
    requires NumbersFaithful(s, codec)
    ensures AllWellFormed(Printed(s.panels, PanelLine)) <==> forall p :: p in s.panels ==> WellFormed(p.title)
    ensures AllWellFormed(Printed(s.groups, GroupLine))
    ensures AllWellFormed(Printed(s.nodes, NodeFormat(codec)))
    ensures AllWellFormed(Printed(s.floatingHosts, HostFormat(codec))) <==>
            forall h :: h in s.floatingHosts ==> WellFormed(h.placement.monitorKey)
    ensures AllWellFormed(Printed(s.autoHide, EntryLine))
  {
    hide WellFormed, Printed, PanelLine, GroupLine, NodeLine, HostLine, EntryLine, Faithful, PlacementFaithful;
    PrintedWellFormed(s.panels, PanelLine);
    forall p ensures WellFormed(PanelLine(p)) <==> WellFormed(p.title) { PanelWellFormed(p); }
    PrintedWellFormed(s.groups, GroupLine);
    forall g ensures WellFormed(GroupLine(g)) { GroupWellFormed(g); }
    PrintedWellFormed(s.nodes, NodeFormat(codec));
    forall n | n in s.nodes ensures WellFormed(NodeFormat(codec)(n)) { NodeWellFormed(n, codec); }
    PrintedWellFormed(s.floatingHosts, HostFormat(codec));
    forall h | h in s.floatingHosts ensures WellFormed(HostFormat(codec)(h)) <==> WellFormed(h.placement.monitorKey) {
      HostWellFormed(h, codec);
    }
    PrintedWellFormed(s.autoHide, EntryLine);
    forall e ensures WellFormed(EntryLine(e)) { EntryWellFormed(e); }
  }

  lemma SessionWellFormed(s: DockLayoutSnapshot, codec: RealCodec)
    requires NumbersFaithful(s, codec)
    ensures WellFormed(Unlines(SessionLines(s, codec))) <==> TextsWellFormed(s)
  {
    hide WellFormed, Section, Printed, HeaderLine, RootLine, Unlines, AllWellFormed, NumbersFaithful;
    RowsWellFormed(s, codec);
    FrontWellFormed(s.mainRoot, s.activePanel);
    var head := [HeaderLine(), RootLine(s.mainRoot, s.activePanel)];
    var panels, groups := Section("PC", Printed(s.panels, PanelLine)), Section("GC", Printed(s.groups, GroupLine));
    var nodes := Section("NC", Printed(s.nodes, NodeFormat(codec)));
    var hosts := Section("FC", Printed(s.floatingHosts, HostFormat(codec)));
    var hidden := Section("AC", Printed(s.autoHide, EntryLine));
    assert AllWellFormed(head) && AllWellFormed(["E"]) by { FewWellFormed(HeaderLine(), RootLine(s.mainRoot, s.activePanel), "E"); }
    SectionWellFormed("PC", Printed(s.panels, PanelLine));
    SectionWellFormed("GC", Printed(s.groups, GroupLine));
    SectionWellFormed("NC", Printed(s.nodes, NodeFormat(codec)));
    SectionWellFormed("FC", Printed(s.floatingHosts, HostFormat(codec)));
    SectionWellFormed("AC", Printed(s.autoHide, EntryLine));
    AllWellFormedConcat(head, panels);
    AllWellFormedConcat(head + panels, groups);
    AllWellFormedConcat(head + panels + groups, nodes);
    AllWellFormedConcat(head + panels + groups + nodes, hosts);
    AllWellFormedConcat(head + panels + groups + nodes + hosts, hidden);
    AllWellFormedConcat(head + panels + groups + nodes + hosts + hidden, ["E"]);
    UnlinesWellFormed(SessionLines(s, codec));
  }

  lemma FewWellFormed(a: string, b: string, c: string)
    requires WellFormed(a) && WellFormed(b) && WellFormed(c)
    ensures AllWellFormed([a, b]) && AllWellFormed([c])
  {
    hide WellFormed;
  }
}
