/**
 * Section-by-section report assembly (pages/2_Generate_Report.py).
 *
 * The chat-completion service is an oracle: the n-th call made by the
 * section loop receives the n-th response of a given sequence. The vector
 * search is an oracle too: its matches are given as their metadata maps.
 */
module ReportGeneration {
  import opened Wrappers
  import opened Text
  import opened IntakeRecord

  /** The system message, the same for every section. */
  const SystemMessage: string :=
    "You are a world-renowned Traditional Chinese Medicine practitioner with decades of experience and deep knowledge of both traditional and modern TCM practices. Your diagnostic reports are known for their exceptional detail, insight, and thoroughness."

  /** The report sections, generated strictly in this order. */
  const ReportSections: seq<string> := [
    "1. Case Abstract",
    "2. Case Study",
    "3. TCM Diagnosis",
    "4. Diagnosis and Treatment Plan",
    "5. TCM Pattern Differentiation Diagram",
    "6. References"
  ]

  // ---------------------------------------------------------------- context

  /** The metadata dictionary of one vector-search match. */
  type Metadata = map<string, string>

  /** `metadata['text']` of the matches that have a `text` key, in returned order. */
  function RetrievedTexts(matches: seq<Metadata>): (texts: seq<string>)
    ensures |texts| <= |matches|
  {
    if |matches| == 0 then []
    else
      var last := matches[|matches| - 1];
      RetrievedTexts(matches[..|matches| - 1]) + (if "text" in last then [last["text"]] else [])
  }

  /** The context string: the retrieved texts joined with "\n". */
  function BuildContext(matches: seq<Metadata>): string {
    Join(RetrievedTexts(matches), "\n")
  }

  /** Filtering keeps the order: the texts of two batches are the texts of each, in turn. */
  lemma {:induction false} RetrievedTextsAppend(a: seq<Metadata>, b: seq<Metadata>)
    ensures RetrievedTexts(a + b) == RetrievedTexts(a) + RetrievedTexts(b)
  {
    if |b| > 0 {
      var b' := b[..|b| - 1];
      assert (a + b)[..|a + b| - 1] == a + b';
      RetrievedTextsAppend(a, b');
    } else {
      assert a + b == a;
    }
  }

  /** A text is retrieved exactly when some match carries it under the `text` key. */
  lemma {:induction false} RetrievedTextsMembers(matches: seq<Metadata>, t: string)
    ensures t in RetrievedTexts(matches) <==>
            exists i :: 0 <= i < |matches| && "text" in matches[i] && matches[i]["text"] == t
  {
    if |matches| > 0 {
      var init := matches[..|matches| - 1];
      RetrievedTextsMembers(init, t);
      if t in RetrievedTexts(init) {
        var i :| 0 <= i < |init| && "text" in init[i] && init[i]["text"] == t;
        assert matches[i] == init[i];
      }
      if exists i :: 0 <= i < |matches| && "text" in matches[i] && matches[i]["text"] == t {
        var i :| 0 <= i < |matches| && "text" in matches[i] && matches[i]["text"] == t;
        if i < |init| {
          assert init[i] == matches[i];
        }
      }
    }
  }

  /** Every match without a `text` key is dropped, every other one kept. */
  lemma {:induction false} RetrievedTextsCount(matches: seq<Metadata>)
    ensures |RetrievedTexts(matches)| == |matches| <==>
            forall i :: 0 <= i < |matches| ==> "text" in matches[i]
  {
    if |matches| > 0 {
      var init := matches[..|matches| - 1];
      RetrievedTextsCount(init);
      assert forall i :: 0 <= i < |init| ==> init[i] == matches[i];
    }
  }

  /**
   * When the retrieved texts are newline-free, splitting the context on "\n"
   * gives them back in order: the context holds those texts and nothing else.
   */
  lemma ContextSplitsIntoTexts(matches: seq<Metadata>)
    requires |RetrievedTexts(matches)| >= 1
    requires forall k :: 0 <= k < |RetrievedTexts(matches)| ==> '\n' !in RetrievedTexts(matches)[k]
    ensures Split(BuildContext(matches)) == RetrievedTexts(matches)
  {
    SplitJoin(RetrievedTexts(matches));
  }

  // ----------------------------------------------------------------- prompts

  /** A chat request: the system message and the user message. */
  datatype Prompt = Prompt(system: string, user: string)

  /**
   * The fixed pieces of the user-message f-string, in order: before the
   * section name, before the context, before the patient input, before the
   * repeated section name, and after it.
   */
  datatype MessageTemplate = MessageTemplate(intro: string, beforeContext: string, beforeInput: string,
                                             beforeRepeat: string, close: string)

  /** The f-string of the section loop, with its indentation. */
  const SectionTemplate: MessageTemplate := MessageTemplate(
    "\n        Based on the following patient information and context, generate a comprehensive and detailed TCM diagnostic report section for: ",
    "\n\n        Ensure your response is extremely thorough and professional, demonstrating deep understanding of TCM principles and providing well-reasoned insights.\n\n        Context: ",
    "\n\n        Patient Input: ",
    "\n\n        Generate the ",
    " of the TCM Diagnostic Report:\n        ")

  /** The template filled in for one section. */
  function Fill(t: MessageTemplate, section: string, context: string, userInput: string): string {
    t.intro + section + t.beforeContext + context + t.beforeInput + userInput + t.beforeRepeat + section + t.close
  }

  /** The user message for one section. */
  function UserMessage(section: string, context: string, userInput: string): string {
    Fill(SectionTemplate, section, context, userInput)
  }

  /**
   * A filled template embeds the section name, the context and the patient
   * input; the section name sits right after the intro.
   */
  lemma FillEmbeds(t: MessageTemplate, section: string, context: string, userInput: string)
    ensures OccursAt(Fill(t, section, context, userInput), section, |t.intro|)
    ensures Occurs(Fill(t, section, context, userInput), section)
    ensures Occurs(Fill(t, section, context, userInput), context)
    ensures Occurs(Fill(t, section, context, userInput), userInput)
  {
    var p1, p2, p3, p4, p5 := t.intro, t.beforeContext, t.beforeInput, t.beforeRepeat, t.close;
    var tail3 := p4 + section + p5;
    var tail2 := p3 + userInput + tail3;
    var tail1 := p2 + context + tail2;
    OccursBetween(p1, section, tail1);
    OccursBetween(p1 + section + p2, context, tail2);
    OccursBetween(p1 + section + p2 + context + p3, userInput, tail3);
    Regroup(p1, section, p2, context, tail2);
    Regroup(p1 + section + p2, context, p3, userInput, tail3);
    Regroup(p1 + section + p2 + context + p3, userInput, p4, section, p5);
  }

  /** With the template, context and input fixed, the filled message tells the sections apart. */
  lemma FillDeterminesSection(t: MessageTemplate, s1: string, s2: string, context: string, userInput: string)
    requires Fill(t, s1, context, userInput) == Fill(t, s2, context, userInput)
    ensures s1 == s2
  {
    FillEmbeds(t, s1, context, userInput);
    FillEmbeds(t, s2, context, userInput);
    var fixedLength := |t.intro| + |t.beforeContext| + |t.beforeInput| + |t.beforeRepeat| + |t.close|;
    assert |Fill(t, s1, context, userInput)| == fixedLength + |context| + |userInput| + 2 * |s1|;
    assert |Fill(t, s2, context, userInput)| == fixedLength + |context| + |userInput| + 2 * |s2|;
  }

  /** Every section's user message embeds the section name, the shared context and the shared patient input. */
  lemma UserMessageEmbeds(section: string, context: string, userInput: string)
    ensures Occurs(UserMessage(section, context, userInput), section)
    ensures Occurs(UserMessage(section, context, userInput), context)
    ensures Occurs(UserMessage(section, context, userInput), userInput)
  {
    FillEmbeds(SectionTemplate, section, context, userInput);
  }

  /** Different sections get different user messages. */
  lemma UserMessageDeterminesSection(s1: string, s2: string, context: string, userInput: string)
    requires UserMessage(s1, context, userInput) == UserMessage(s2, context, userInput)
    ensures s1 == s2
  {
    FillDeterminesSection(SectionTemplate, s1, s2, context, userInput);
  }

  // ---------------------------------------------------------------- sections

  /** What one chat-completion call did: it raised, or returned message content (possibly `None`). */
  datatype CompletionResponse = Raised(error: string) | Completed(content: Option<string>)

  /**
   * `generate_diagnostic_report_part`: an exception is caught and becomes
   * `None`; otherwise the message content is returned as it is.
   */
  function GenerateReportPart(response: CompletionResponse): Option<string>
  {
    match response
    case Raised(_) => None
    case Completed(c) => c
  }

  /**
   * The section results of a run, one per call: a result is usable exactly
   * when its call completed with non-empty content, and it is then that
   * content.
   */
  function Contents(responses: seq<CompletionResponse>): (contents: seq<Option<string>>)
    ensures |contents| == |responses|
    ensures forall i :: 0 <= i < |responses| ==>
              (Truthy(contents[i]) <==> responses[i].Completed? && Truthy(responses[i].content))
    ensures forall i :: 0 <= i < |responses| && Truthy(contents[i]) ==> responses[i] == Completed(contents[i])
  {
    seq(|responses|, i requires 0 <= i < |responses| => GenerateReportPart(responses[i]))
  }

  /** Python truthiness of the section result: `None` and `""` are false. */
  predicate Truthy(content: Option<string>) {
    content.Some? && content.value != ""
  }

  /** What one section adds to the report: its heading and text, or nothing when it failed. */
  function Contribution(section: string, content: Option<string>): string {
    if Truthy(content) then "\n\n" + section + "\n" + content.value else ""
  }

  /** The contributions of sections lo..hi-1, concatenated in section order. */
  function AssembleRange(sections: seq<string>, contents: seq<Option<string>>, lo: nat, hi: nat): string
    requires |sections| == |contents| && lo <= hi <= |sections|
    decreases hi - lo
  {
    if lo == hi then ""
    else AssembleRange(sections, contents, lo, hi - 1) + Contribution(sections[hi - 1], contents[hi - 1])
  }

  /** The whole report: every section's contribution, in section order. */
  function Assemble(sections: seq<string>, contents: seq<Option<string>>): string
    requires |sections| == |contents|
  {
    AssembleRange(sections, contents, 0, |sections|)
  }

  /** The names of the failed sections among the first n, in order: one warning each. */
  function FailedAmong(sections: seq<string>, contents: seq<Option<string>>, n: nat): seq<string>
    requires |sections| == |contents| && n <= |sections|
  {
    if n == 0 then []
    else FailedAmong(sections, contents, n - 1) + (if Truthy(contents[n - 1]) then [] else [sections[n - 1]])
  }

  /** The report of two adjacent runs of sections is the two reports back to back. */
  lemma {:induction false} AssembleRangeSplit(sections: seq<string>, contents: seq<Option<string>>,
                                              lo: nat, mid: nat, hi: nat)
    requires |sections| == |contents| && lo <= mid <= hi <= |sections|
    ensures AssembleRange(sections, contents, lo, hi) ==
            AssembleRange(sections, contents, lo, mid) + AssembleRange(sections, contents, mid, hi)
    decreases hi - mid
  {
    if mid < hi {
      AssembleRangeSplit(sections, contents, lo, mid, hi - 1);
    }
  }

  /**
   * Section k contributes its own heading and text at its own place and
   * nothing else; in particular a failed section contributes nothing and the
   * sections after it still appear.
   */
  lemma SectionContribution(sections: seq<string>, contents: seq<Option<string>>, k: nat)
    requires |sections| == |contents| && k < |sections|
    ensures Assemble(sections, contents) ==
            AssembleRange(sections, contents, 0, k) + Contribution(sections[k], contents[k])
            + AssembleRange(sections, contents, k + 1, |sections|)
  {
    var n := |sections|;
    var before, after := AssembleRange(sections, contents, 0, k), AssembleRange(sections, contents, k + 1, n);
    var own := Contribution(sections[k], contents[k]);
    assert AssembleRange(sections, contents, k, k + 1) == "" + own;
    assert "" + own == own;
    AssembleRangeSplit(sections, contents, 0, k, n);
    AssembleRangeSplit(sections, contents, k, k + 1, n);
    assert before + (own + after) == before + own + after;
  }

  /** No section of a range contributes exactly when none of its sections succeeded. */
  lemma {:induction false} EmptyRangeIffAllFailed(sections: seq<string>, contents: seq<Option<string>>,
                                                  lo: nat, hi: nat)
    requires |sections| == |contents| && lo <= hi <= |sections|
    ensures |AssembleRange(sections, contents, lo, hi)| == 0 <==>
            forall i :: lo <= i < hi ==> !Truthy(contents[i])
    decreases hi - lo
  {
    if lo < hi {
      EmptyRangeIffAllFailed(sections, contents, lo, hi - 1);
      var own := Contribution(sections[hi - 1], contents[hi - 1]);
      assert |own| == 0 <==> !Truthy(contents[hi - 1]);
      assert |AssembleRange(sections, contents, lo, hi)| == |AssembleRange(sections, contents, lo, hi - 1)| + |own|;
    }
  }

  /** The report is empty exactly when every section failed; there is no other failure outcome. */
  lemma EmptyReportIffAllFailed(sections: seq<string>, contents: seq<Option<string>>)
    requires |sections| == |contents|
    ensures |Assemble(sections, contents)| == 0 <==> forall i :: 0 <= i < |contents| ==> !Truthy(contents[i])
  {
    EmptyRangeIffAllFailed(sections, contents, 0, |sections|);
  }

  /** One warning per failed section: all n are warned about exactly when all n failed, none when none did. */
  lemma {:induction false} FailedAmongCount(sections: seq<string>, contents: seq<Option<string>>, n: nat)
    requires |sections| == |contents| && n <= |sections|
    ensures |FailedAmong(sections, contents, n)| <= n
    ensures |FailedAmong(sections, contents, n)| == n <==> forall i :: 0 <= i < n ==> !Truthy(contents[i])
    ensures FailedAmong(sections, contents, n) == [] <==> forall i :: 0 <= i < n ==> Truthy(contents[i])
  {
    if n > 0 {
      FailedAmongCount(sections, contents, n - 1);
    }
  }

  /** A call that raised leaves its section out of the report, and the loop goes on with the next one. */
  lemma RaisedSectionLeftOut(responses: seq<CompletionResponse>, k: nat)
    requires |responses| == |ReportSections| && k < |responses| && responses[k].Raised?
    ensures Assemble(ReportSections, Contents(responses)) ==
            AssembleRange(ReportSections, Contents(responses), 0, k)
            + AssembleRange(ReportSections, Contents(responses), k + 1, |ReportSections|)
  {
    SectionContribution(ReportSections, Contents(responses), k);
  }

  /**
   * The section loop of `generate_diagnostic_report`: walks the sections in
   * order, sends one prompt per section, appends each truthy result under its
   * heading, warns about each failed one, and reports progress i+1 of n after
   * the i-th section.
   */
  method RunSections(systemMessage: string, template: MessageTemplate, sections: seq<string>,
                     context: string, userInput: string,
                     responses: seq<CompletionResponse>)
    returns (report: string, prompts: seq<Prompt>, failed: seq<string>, progress: seq<nat>)
    requires |responses| == |sections|
    ensures |prompts| == |sections|
    ensures forall i :: 0 <= i < |prompts| ==>
              prompts[i] == Prompt(systemMessage, Fill(template, sections[i], context, userInput))
    ensures report == Assemble(sections, Contents(responses))
    ensures failed == FailedAmong(sections, Contents(responses), |sections|)
    ensures |progress| == |sections|
    ensures forall i :: 0 <= i < |progress| ==> progress[i] == i + 1
  {
    ghost var contents := Contents(responses);
    report, prompts, failed, progress := "", [], [], [];
    for i := 0 to |sections|
      invariant |prompts| == i
      invariant forall j :: 0 <= j < i ==>
                  prompts[j] == Prompt(systemMessage, Fill(template, sections[j], context, userInput))
      invariant report == AssembleRange(sections, contents, 0, i)
      invariant failed == FailedAmong(sections, contents, i)
      invariant |progress| == i
      invariant forall j :: 0 <= j < i ==> progress[j] == j + 1
    {
      var section := sections[i];
      prompts := prompts + [Prompt(systemMessage, Fill(template, section, context, userInput))];
      var sectionContent := GenerateReportPart(responses[i]);
      if sectionContent.Some? && sectionContent.value != "" {
        report := report + ("\n\n" + section + "\n" + sectionContent.value);
      } else {
        failed := failed + [section];
      }
      progress := progress + [i + 1];
    }
  }

  /**
   * `generate_diagnostic_report`: the section loop over the fixed report
   * sections, with the fixed system message.
   */
  method GenerateDiagnosticReport(context: string, userInput: string, responses: seq<CompletionResponse>)
    returns (report: string, prompts: seq<Prompt>, failed: seq<string>, progress: seq<nat>)
    requires |responses| == |ReportSections|
    ensures |prompts| == |ReportSections|
    ensures forall i :: 0 <= i < |prompts| ==>
              prompts[i] == Prompt(SystemMessage, UserMessage(ReportSections[i], context, userInput))
    ensures report == Assemble(ReportSections, Contents(responses))
    ensures failed == FailedAmong(ReportSections, Contents(responses), |ReportSections|)
    ensures |progress| == |ReportSections| && progress[|ReportSections| - 1] == |ReportSections|
    ensures forall i :: 0 <= i < |progress| ==> progress[i] == i + 1
  {
    report, prompts, failed, progress := RunSections(SystemMessage, SectionTemplate, ReportSections, context, userInput, responses);
  }

  /**
   * The "Generate Report" page. Without `patient_info` in the session, or
   * without a click, nothing is sent and the session is left alone. The
   * search is `None` when it fails: `query_pinecone` raises, or a match has
   * no `metadata`. The page then aborts before any section is generated,
   * and the stored report stays as it was. Otherwise the context is built
   * from the matches, the section loop runs on it, and the report is kept
   * in the session.
   */
  method GenerateReportPage(session: Session, clicked: bool, search: Option<seq<Metadata>>, userInput: string,
                            responses: seq<CompletionResponse>)
    returns (prompts: seq<Prompt>)
    requires |responses| == |ReportSections|
    modifies session
    ensures !(old(session.hasPatientInfo) && clicked && search.Some?) ==>
              prompts == [] && session.generatedReport == old(session.generatedReport)
    ensures old(session.hasPatientInfo) && clicked && search.Some? ==>
              session.generatedReport == Some(Assemble(ReportSections, Contents(responses)))
              && |prompts| == |ReportSections|
              && forall i :: 0 <= i < |prompts| ==>
                   prompts[i].user == UserMessage(ReportSections[i], BuildContext(search.value), userInput)
    ensures session.patientInfo == old(session.patientInfo) && session.flags == old(session.flags)
    ensures session.generateReport == old(session.generateReport)
    ensures session.hasPatientInfo == old(session.hasPatientInfo)
  {
    prompts := [];
    if session.hasPatientInfo && clicked {
      match search
      case None =>
      case Some(matches) =>
        var context := BuildContext(matches);
        var report, sent, failed, progress := GenerateDiagnosticReport(context, userInput, responses);
        prompts := sent;
        session.generatedReport := Some(report);
    }
  }
}
