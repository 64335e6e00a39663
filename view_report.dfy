/**
 * The report viewer (pages/3_View_Report.py): the generated report is shown
 * with its Mermaid blocks cut out (`MermaidBlocks.Sub`), each extracted
 * diagram (`MermaidBlocks.Findall`) is rendered under its own key, and
 * `create_docx_report` lays a Word document out as a title, one paragraph
 * per line and the numbered diagrams.
 */
module ViewReport {
  import opened Wrappers
  import opened Text
  import opened IntakeRecord
  import opened MermaidBlocks

  // ----------------------------------------------------------- diagram keys

  /** `f"mermaid_diagram_{i}"` */
  function MermaidKey(i: nat): string {
    "mermaid_diagram_" + NatToString(i)
  }

  /** Different diagrams get different keys. */
  lemma MermaidKeysDistinct(i: nat, j: nat)
    requires i != j
    ensures MermaidKey(i) != MermaidKey(j)
  {
    if MermaidKey(i) == MermaidKey(j) {
      var prefix := "mermaid_diagram_";
      assert prefix + NatToString(i) + "" == prefix + NatToString(j) + "";
      AffixesCancel(prefix, NatToString(i), NatToString(j), "");
      NatToStringInjective(i, j);
    }
  }

  /**
   * The rendering loop over the extracted diagrams: one component per
   * diagram, in order, each under its own key.
   */
  method DiagramKeys(diagrams: seq<string>) returns (keys: seq<string>)
    ensures |keys| == |diagrams|
    ensures forall i :: 0 <= i < |keys| ==> keys[i] == MermaidKey(i)
    ensures forall i, j :: 0 <= i < j < |keys| ==> keys[i] != keys[j]
  {
    keys := [];
    for i := 0 to |diagrams|
      invariant |keys| == i
      invariant forall k :: 0 <= k < i ==> keys[k] == MermaidKey(k)
    {
      keys := keys + [MermaidKey(i)];
    }
    forall i, j | 0 <= i < j < |keys|
      ensures keys[i] != keys[j]
    {
      MermaidKeysDistinct(i, j);
    }
  }

  // ---------------------------------------------------------- the document

  /** A block of the Word document: a heading with its level, or a paragraph. */
  datatype DocBlock = Heading(text: string, level: nat) | Paragraph(text: string)

  /** The Word document as the list of blocks added to it, in order. */
  class Document {
    var blocks: seq<DocBlock>

    /** `Document()`: an empty document. */
    constructor ()
      ensures blocks == []
    {
      blocks := [];
    }

    /** `add_heading(text, level)` */
    method AddHeading(text: string, level: nat)
      modifies this
      ensures blocks == old(blocks) + [Heading(text, level)]
    {
      blocks := blocks + [Heading(text, level)];
    }

    /** `add_paragraph(text)` */
    method AddParagraph(text: string)
      modifies this
      ensures blocks == old(blocks) + [Paragraph(text)]
    {
      blocks := blocks + [Paragraph(text)];
    }
  }

  const ReportTitle: string := "TCM Diagnostic Report"
  const DiagramsHeading: string := "TCM Pattern Differentiation Diagrams"

  /** `f"Diagram {i+1}:"` for the diagram at index i. */
  function DiagramLabel(i: nat): string {
    "Diagram " + NatToString(i + 1) + ":"
  }

  /** One paragraph per line, in order. */
  function Paragraphs(lines: seq<string>): (ps: seq<DocBlock>)
    ensures |ps| == |lines|
  {
    seq(|lines|, i requires 0 <= i < |lines| => Paragraph(lines[i]))
  }

  /** Paragraph i holds line i. */
  lemma ParagraphsAt(lines: seq<string>)
    ensures |Paragraphs(lines)| == |lines|
    ensures forall i :: 0 <= i < |lines| ==> Paragraphs(lines)[i] == Paragraph(lines[i])
  {
  }

  /** One more line, one more paragraph. */
  lemma ParagraphsSnoc(lines: seq<string>, i: nat)
    requires i < |lines|
    ensures Paragraphs(lines[..i + 1]) == Paragraphs(lines[..i]) + [Paragraph(lines[i])]
  {
    assert lines[..i + 1] == lines[..i] + [lines[i]];
  }

  /** The label and body paragraphs of the first n diagrams. */
  function DiagramEntries(diagrams: seq<string>, n: nat): seq<DocBlock>
    requires n <= |diagrams|
  {
    if n == 0 then []
    else DiagramEntries(diagrams, n - 1) + [Paragraph(DiagramLabel(n - 1)), Paragraph(diagrams[n - 1])]
  }

  /** One more diagram, one more label and body. */
  lemma DiagramEntriesSnoc(diagrams: seq<string>, i: nat)
    requires i < |diagrams|
    ensures DiagramEntries(diagrams, i + 1)
            == DiagramEntries(diagrams, i) + [Paragraph(DiagramLabel(i)), Paragraph(diagrams[i])]
  {
  }

  /** Diagram i is announced by its number from 1 and followed by its body. */
  lemma {:induction false} DiagramEntriesShape(diagrams: seq<string>, n: nat)
    requires n <= |diagrams|
    ensures |DiagramEntries(diagrams, n)| == 2 * n
    ensures forall i :: 0 <= i < n ==>
              DiagramEntries(diagrams, n)[2 * i] == Paragraph(DiagramLabel(i))
              && DiagramEntries(diagrams, n)[2 * i + 1] == Paragraph(diagrams[i])
  {
    if n > 0 {
      DiagramEntriesShape(diagrams, n - 1);
    }
  }

  /** The diagrams section: empty without diagrams, else the heading and the entries. */
  function DiagramSection(diagrams: seq<string>): seq<DocBlock> {
    if |diagrams| == 0 then [] else [Heading(DiagramsHeading, 1)] + DiagramEntries(diagrams, |diagrams|)
  }

  /** The document laid out from the report's lines and the diagrams. */
  function LayoutOf(lines: seq<string>, diagrams: seq<string>): seq<DocBlock> {
    [Heading(ReportTitle, 0)] + Paragraphs(lines) + DiagramSection(diagrams)
  }

  /** The document `create_docx_report` builds, as a list of blocks: the report is split at each `"\n"`. */
  function Layout(reportText: string, diagrams: seq<string>): seq<DocBlock> {
    LayoutOf(Split(reportText), diagrams)
  }

  /**
   * `create_docx_report`: the title, one paragraph per line of the report
   * (empty lines included), then — only when there are diagrams — the
   * diagrams heading and a numbered label and body for each diagram.
   */
  method CreateDocxReport(reportText: string, diagrams: seq<string>) returns (doc: Document)
    ensures fresh(doc)
    ensures doc.blocks == Layout(reportText, diagrams)
  {
    doc := new Document();
    doc.AddHeading(ReportTitle, 0);
    var lines := Split(reportText);
    for i := 0 to |lines|
      invariant doc.blocks == [Heading(ReportTitle, 0)] + Paragraphs(lines[..i])
    {
      doc.AddParagraph(lines[i]);
      ParagraphsSnoc(lines, i);
    }
    assert lines[..|lines|] == lines;
    ghost var front := doc.blocks;
    if |diagrams| > 0 {
      doc.AddHeading(DiagramsHeading, 1);
      ghost var headed := doc.blocks;
      for i := 0 to |diagrams|
        invariant doc.blocks == headed + DiagramEntries(diagrams, i)
      {
        doc.AddParagraph(DiagramLabel(i));
        doc.AddParagraph(diagrams[i]);
        DiagramEntriesSnoc(diagrams, i);
        AppendPair(headed, DiagramEntries(diagrams, i), Paragraph(DiagramLabel(i)), Paragraph(diagrams[i]));
      }
    }
    assert doc.blocks == front + DiagramSection(diagrams);
  }

  /** Appending two blocks one after the other appends the pair. */
  lemma AppendPair<T>(a: seq<T>, b: seq<T>, x: T, y: T)
    ensures a + b + [x] + [y] == a + (b + [x, y])
  {
  }

  /** Indexing past a prefix reaches into what follows it. */
  lemma IndexAfter<T>(front: seq<T>, tail: seq<T>)
    ensures forall k :: 0 <= k < |tail| ==> (front + tail)[|front| + k] == tail[k]
  {
  }

  /** The diagrams section on its own: the heading, then a label and a body per diagram. */
  lemma DiagramSectionShape(diagrams: seq<string>)
    ensures |diagrams| == 0 ==> DiagramSection(diagrams) == []
    ensures |diagrams| > 0 ==>
              |DiagramSection(diagrams)| == 1 + 2 * |diagrams|
              && DiagramSection(diagrams)[0] == Heading(DiagramsHeading, 1)
    ensures forall i :: 0 <= i < |diagrams| ==>
              DiagramSection(diagrams)[1 + 2 * i] == Paragraph(DiagramLabel(i))
              && DiagramSection(diagrams)[2 + 2 * i] == Paragraph(diagrams[i])
  {
    if |diagrams| > 0 {
      DiagramEntriesShape(diagrams, |diagrams|);
      IndexAfter([Heading(DiagramsHeading, 1)], DiagramEntries(diagrams, |diagrams|));
    }
  }

  /** Indexing into a head, a middle and a tail. */
  lemma IndexThree<T>(head: T, middle: seq<T>, tail: seq<T>)
    ensures |[head] + middle + tail| == 1 + |middle| + |tail|
    ensures ([head] + middle + tail)[0] == head
    ensures forall i :: 0 <= i < |middle| ==> ([head] + middle + tail)[1 + i] == middle[i]
  {
  }

  /** The layout opens with the title, followed by line i as block 1 + i, one per line. */
  lemma LayoutFront(lines: seq<string>, diagrams: seq<string>)
    ensures 1 + |lines| <= |LayoutOf(lines, diagrams)|
    ensures LayoutOf(lines, diagrams)[0] == Heading(ReportTitle, 0)
    ensures forall i :: 0 <= i < |lines| ==> LayoutOf(lines, diagrams)[1 + i] == Paragraph(lines[i])
  {
    ParagraphsAt(lines);
    IndexThree(Heading(ReportTitle, 0), Paragraphs(lines), DiagramSection(diagrams));
  }

  /** After the lines come the diagrams heading and, in pairs, the label of diagram i numbered from 1 and its body. */
  lemma LayoutDiagrams(lines: seq<string>, diagrams: seq<string>)
    ensures |LayoutOf(lines, diagrams)| == 1 + |lines| + (if |diagrams| == 0 then 0 else 1 + 2 * |diagrams|)
    ensures |diagrams| > 0 ==> LayoutOf(lines, diagrams)[1 + |lines|] == Heading(DiagramsHeading, 1)
    ensures forall i :: 0 <= i < |diagrams| ==>
              LayoutOf(lines, diagrams)[2 + |lines| + 2 * i] == Paragraph(DiagramLabel(i))
              && LayoutOf(lines, diagrams)[3 + |lines| + 2 * i] == Paragraph(diagrams[i])
  {
    var front := [Heading(ReportTitle, 0)] + Paragraphs(lines);
    var section := DiagramSection(diagrams);
    assert LayoutOf(lines, diagrams) == front + section;
    DiagramSectionShape(diagrams);
    IndexAfter(front, section);
  }

  /** Without diagrams the document has no diagrams heading at all. */
  lemma NoDiagramsNoHeading(lines: seq<string>)
    ensures Heading(DiagramsHeading, 1) !in LayoutOf(lines, [])
  {
    var front := [Heading(ReportTitle, 0)] + Paragraphs(lines);
    assert LayoutOf(lines, []) == front;
    assert ReportTitle != DiagramsHeading by {
      assert |ReportTitle| != |DiagramsHeading|;
    }
    assert forall b :: b in front ==> b == Heading(ReportTitle, 0) || b.Paragraph?;
  }

  /** The texts of a run of blocks. */
  function Texts(blocks: seq<DocBlock>): seq<string>
  {
    seq(|blocks|, i requires 0 <= i < |blocks| => blocks[i].text)
  }

  /** The report's paragraphs, one per line, joined back with newlines, are the report text. */
  lemma ParagraphsRebuildText(reportText: string)
    ensures |Paragraphs(Split(reportText))| == NewlineCount(reportText) + 1
    ensures Join(Texts(Paragraphs(Split(reportText))), "\n") == reportText
  {
    var lines := Split(reportText);
    assert Texts(Paragraphs(lines)) == lines;
    SplitCount(reportText);
    JoinSplit(reportText);
  }

  /** Different diagrams carry different labels. */
  lemma DiagramLabelsDistinct(i: nat, j: nat)
    requires i != j
    ensures DiagramLabel(i) != DiagramLabel(j)
  {
    if DiagramLabel(i) == DiagramLabel(j) {
      AffixesCancel("Diagram ", NatToString(i + 1), NatToString(j + 1), ":");
      NatToStringInjective(i + 1, j + 1);
    }
  }

  // ------------------------------------------------------------------ page

  /** What the page shows: the report without its blocks, the diagrams and their keys. */
  datatype ReportView = ReportView(markdown: string, diagrams: seq<string>, keys: seq<string>)

  /**
   * The page: nothing is shown until a report has been generated; then the
   * report is shown with its Mermaid blocks removed, followed by each
   * diagram under its own key.
   */
  method ViewReportPage(session: Session) returns (view: Option<ReportView>)
    ensures session.generatedReport.None? ==> view.None?
    ensures session.generatedReport.Some? ==>
              view.Some?
              && view.value.markdown == Sub(session.generatedReport.value)
              && view.value.diagrams == Findall(session.generatedReport.value)
              && |view.value.keys| == |view.value.diagrams|
              && forall i :: 0 <= i < |view.value.keys| ==> view.value.keys[i] == MermaidKey(i)
  {
    if session.generatedReport.None? {
      return None;
    }
    var report := session.generatedReport.value;
    var matches := Findall(report);
    var withoutDiagrams := Sub(report);
    var keys := DiagramKeys(matches);
    view := Some(ReportView(withoutDiagrams, matches, keys));
  }
}
