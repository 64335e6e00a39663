# TCM diagnostic report assistant — a Dafny model

This project models the Streamlit pages of a Traditional Chinese Medicine
diagnostic assistant. There are three pages:

- **Patient Information.** A clinician fills in an intake form. Each part
  is saved into the session's `patient_info` dictionary, and the part is
  marked complete.
- **Generate Report.** Context passages are retrieved for the record. A
  chat-completion service is then asked for each of six report sections in
  turn, and the answers are joined into one report.
- **View Report.** The report is shown with its Mermaid code blocks taken
  out. The diagrams are listed under unique keys, and the report is laid
  out as a Word document.

The session (`st.session_state`) is a class, `IntakeRecord.Session`. The
intake and generation pages change it in place, and their methods state the
session's whole new state. The view page only reads it.

Two external services are modelled as oracles:

- **Chat completion.** The n-th call receives the n-th element of a given
  sequence of responses. A response is either an exception or a completion
  whose content may be `None`.
- **Vector search.** Its matches are given as their metadata dictionaries,
  or as `None` when the query raises or a match has no metadata. The
  generation page then stops before any section is generated.

Files:

| file | contents |
|---|---|
| `wrappers.dfy` | `Option` |
| `text.dfy` | substrings, `"\n".join` and `split('\n')` with their round trip, decimal rendering of naturals |
| `intake_record.dfy` | the record's values, the entries of each form section, the session class |
| `patient_intake.dfy` | `pages/1_Patient_Information.py`: age, date-of-birth window, progress count, the ten questions, the section saves, the whole page run |
| `patient_form.dfy` | `pages/patient_information.py`: the bulk update and the "more than half complete" gate |
| `report_generation.dfy` | `pages/2_Generate_Report.py`: context building, prompts, the section loop, the page |
| `mermaid_blocks.dfy` | `re.findall` / `re.sub` of the non-greedy, DOTALL pattern ```` ```mermaid\n(.*?)``` ```` as one left-to-right scan |
| `view_report.dfy` | `pages/3_View_Report.py`: diagram keys, the DOCX layout, the page |

## Model

| member | source | states |
|---|---|---|
| IntakeRecord.Session.constructor | pages/1_Patient_Information.py:19 | a fresh session has no `patient_info`, no completion flags, no `generate_report` flag and no generated report |
| IntakeRecord.MergeSixParts | pages/patient_information.py:6-24 | merging one combined dictionary equals merging its six parts one after another |
| PatientIntake.CalculateAge | pages/1_Patient_Information.py:23-25 | the age is the number of whole years: `today` is on or after the age-th anniversary of birth and before the next one |
| PatientIntake.AgeIsUnique | pages/1_Patient_Information.py:23-25 | any k with that anniversary property is the computed age, so the age is the unique such count |
| PatientIntake.AgeNonNegative | pages/1_Patient_Information.py:23-25 | a birth date not after today gives an age of at least 0 |
| PatientIntake.AgeOnBirthday | pages/1_Patient_Information.py:25 | on the birthday itself the age is the plain year difference |
| PatientIntake.ValidatedDob | pages/1_Patient_Information.py:35-42 | a date survives iff it parsed and lies between 1900-01-01 and today inclusive, and it is then the parsed date unchanged |
| PatientIntake.AgeFromDob | pages/1_Patient_Information.py:44-48 | an age is present exactly when a valid date of birth is |
| PatientIntake.ShownAge | pages/1_Patient_Information.py:30-49 | "Age: Not available" exactly when the text did not parse or the date is outside the window; otherwise a non-negative count of whole years |
| PatientIntake.CompletedAmong | pages/1_Patient_Information.py:11 | the completed count never exceeds the number of sections |
| PatientIntake.CompletedAmongExtremes | pages/1_Patient_Information.py:11-12 | the count is all sections iff every `{section}_complete` flag is set, and 0 iff none is (an absent flag reads as False) |
| PatientIntake.AnswerKeyIsNotDetailsKey | pages/1_Patient_Information.py:126-128 | an `_answer` key never equals a `_details` key, so the two writes per question never collide |
| PatientIntake.QuestionsWellFormed | pages/1_Patient_Information.py:101-112 | the ten questions are distinct and none of them is another question's details key |
| PatientIntake.AnswersDictContents | pages/1_Patient_Information.py:113-121 | after the loop each question maps to its selected answer, and a details entry exists for each "Yes" question holding its text |
| PatientIntake.AnswersDictDomain | pages/1_Patient_Information.py:113-121 | the answers dictionary holds no key other than a question or a question's details key |
| PatientIntake.AnswersDictCovers | pages/1_Patient_Information.py:113-121 | every question has an answer, and every "Yes" answer has details, which is what `auto_save_questions` needs to avoid a KeyError |
| PatientIntake.CollectAnswers | pages/1_Patient_Information.py:113-121 | the question loop builds exactly the answers dictionary specified by `AnswersDict` |
| PatientIntake.SaveAnswersFrame | pages/1_Patient_Information.py:124-128 | the save adds exactly the written keys and leaves every other entry of `patient_info` unchanged |
| PatientIntake.SaveAnswersValues | pages/1_Patient_Information.py:124-128 | each `{question}_answer` holds the answer; each "Yes" question's `{question}_details` holds its details |
| PatientIntake.WrittenKeysDomain | pages/1_Patient_Information.py:124-128 | the save writes only `_answer` keys and the `_details` keys of "Yes" questions |
| PatientIntake.NoAnswerWritesNoDetails | pages/1_Patient_Information.py:127-128 | a question answered "No" gets no details key written |
| PatientIntake.AutoSaveBasic | pages/1_Patient_Information.py:55-64 | on a session holding `patient_info`, `patient_info` gains the five basic entries, overwriting older values; the rest of the session is unchanged |
| PatientIntake.AutoSaveComplaint | pages/1_Patient_Information.py:73-79 | on a session holding `patient_info`, `patient_info` gains the two complaint entries; the rest of the session is unchanged |
| PatientIntake.AutoSaveMedical | pages/1_Patient_Information.py:89-96 | on a session holding `patient_info`, `patient_info` gains the three medical entries; the rest of the session is unchanged |
| PatientIntake.AutoSaveQuestions | pages/1_Patient_Information.py:124-130 | on a session holding `patient_info`, `patient_info` becomes the question save of the collected answers; the rest of the session is unchanged |
| PatientIntake.AutoSaveTongue | pages/1_Patient_Information.py:141-149 | on a session holding `patient_info`, `patient_info` gains the four tongue entries; the rest of the session is unchanged |
| PatientIntake.AutoSavePulse | pages/1_Patient_Information.py:158-164 | on a session holding `patient_info`, `patient_info` gains the two pulse entries; the rest of the session is unchanged |
| PatientIntake.AutoSaveAdditional | pages/1_Patient_Information.py:172-175 | on a session holding `patient_info`, `patient_info` gains `additional_symptoms`; the rest of the session is unchanged |
| PatientIntake.MarkComplete | pages/1_Patient_Information.py:65 | exactly the section's `{section}_complete` flag becomes True |
| PatientIntake.MarkAllSets | pages/1_Patient_Information.py:65-176 | after marking, every listed section's flag is set, so the count reaches all of them; flags of other keys are untouched |
| PatientIntake.FillIntakeForm | pages/1_Patient_Information.py:55-176 | the saves happen in page order, with the question save after the medical one and before the tongue one, and all seven sections are marked |
| PatientIntake.RunPatientInfoPage | pages/1_Patient_Information.py:4-176 | the progress count is taken before this run's saves; `patient_info` is created empty if absent; then every section is saved, and all seven count as completed |
| PatientForm.UpdatePatientInfo | pages/patient_information.py:6-24 | on a session holding `patient_info`, `patient_info` gains the seventeen form entries; the rest of the session is unchanged |
| PatientForm.BulkUpdateMatchesSectionSaves | pages/patient_information.py:6-24 | the single bulk update leaves the same dictionary as the six per-section saves of the intake page |
| PatientForm.SectionKeys | pages/patient_information.py:6-24 | each section writes exactly its own keys |
| PatientForm.FormEntriesKeys | pages/patient_information.py:6-24 | the bulk update writes exactly the seventeen form keys |
| PatientForm.UpdateWritesFormKeys | pages/patient_information.py:6-24 | after the update the keys are the old keys plus the form keys; form keys hold the widget values and other keys keep their old values |
| PatientForm.ProgressGate | pages/patient_information.py:28 | `completed / total > 0.5` holds iff twice the completed count exceeds the total |
| PatientForm.GenerateReportButton | pages/patient_information.py:27-32 | the flag is set iff the button was clicked and progress exceeds one half; a set flag is never cleared, and nothing else changes |
| PatientForm.GateBoundary | pages/patient_information.py:28 | exactly half (5 of 10) does not pass the gate; 6 of 10 does |
| ReportGeneration.RetrievedTexts | pages/2_Generate_Report.py:85 | no more texts than matches |
| ReportGeneration.RetrievedTextsMembers | pages/2_Generate_Report.py:85 | a text is in the context iff some match carries it under its `text` key |
| ReportGeneration.RetrievedTextsCount | pages/2_Generate_Report.py:85 | no match is dropped iff every match has a `text` key |
| ReportGeneration.RetrievedTextsAppend | pages/2_Generate_Report.py:85 | filtering keeps the matches in their returned order |
| ReportGeneration.ContextSplitsIntoTexts | pages/2_Generate_Report.py:85 | for newline-free texts, splitting the context on newlines gives back exactly the retrieved texts |
| ReportGeneration.FillEmbeds | pages/2_Generate_Report.py:52-62 | the prompt names the section at its fixed place and contains the context and the patient input |
| ReportGeneration.FillDeterminesSection | pages/2_Generate_Report.py:52-62 | two sections give the same prompt only if they are the same section |
| ReportGeneration.UserMessageEmbeds | pages/2_Generate_Report.py:52-62 | the page's own prompt text contains the section, the context and the patient input |
| ReportGeneration.UserMessageDeterminesSection | pages/2_Generate_Report.py:52-62 | the page's prompts for different sections differ |
| ReportGeneration.GenerateReportPart | pages/2_Generate_Report.py:16-33 | definition: an exception is caught and gives `None`, and a completion gives its content; its properties are `Contents` and `RaisedSectionLeftOut` |
| ReportGeneration.Contents | pages/2_Generate_Report.py:51-66 | one outcome per response, in order; an outcome is truthy exactly when its call completed with non-empty content, and it is then that content |
| ReportGeneration.AssembleRangeSplit | pages/2_Generate_Report.py:48-67 | the report over a range is the report of its first part followed by that of the rest |
| ReportGeneration.SectionContribution | pages/2_Generate_Report.py:66-69 | the k-th section adds `"\n\n" + section + "\n" + content` when the content is truthy, and nothing otherwise |
| ReportGeneration.EmptyReportIffAllFailed | pages/2_Generate_Report.py:48-74 | the report is empty iff no section produced truthy content |
| ReportGeneration.FailedAmongCount | pages/2_Generate_Report.py:66-69 | the warnings number at most the sections; all sections are warned iff all failed, and none iff all succeeded |
| ReportGeneration.RaisedSectionLeftOut | pages/2_Generate_Report.py:31-33 | a section whose call raised is skipped: the report is the sections before it followed by the sections after it |
| ReportGeneration.RunSections | pages/2_Generate_Report.py:51-72 | one prompt per section, in order; the report is the assembly of the truthy contents; the warnings list the failed sections; progress after step i is i+1 |
| ReportGeneration.GenerateDiagnosticReport | pages/2_Generate_Report.py:36-74 | for the page's system message and its six sections: one prompt per section in order; the report is the assembly of the truthy contents; the warnings list the failed sections; progress after step i is i+1, ending at 6 of 6 |
| ReportGeneration.GenerateReportPage | pages/2_Generate_Report.py:76-98 | with no `patient_info`, no click, or a failed search, nothing is sent and the stored report is unchanged; otherwise the six prompts carry the context built from the matches, and the stored report is the assembled one; `patient_info` and the flags never change |
| MermaidBlocks.FindClose | pages/3_View_Report.py:33-34 | a found closing fence lies inside the text, at or after the search start |
| MermaidBlocks.FindCloseIsFirst | pages/3_View_Report.py:33 | the non-greedy `.*?` stops at the first closing fence, and there is none when the search fails |
| MermaidBlocks.FindCloseFinds | pages/3_View_Report.py:33 | the first closing fence after the start is the one found |
| MermaidBlocks.MatchFront | pages/3_View_Report.py:33 | a match at the front spans the opening, a body and the closing fence, inside the text |
| MermaidBlocks.ScanRenders | pages/3_View_Report.py:33-37 | the pieces the scan cuts out put back together give the text: no character is lost or invented |
| MermaidBlocks.ReportIsItsPieces | pages/3_View_Report.py:33-37 | the same for the Mermaid pattern: a report is its kept text interleaved with its fenced diagrams |
| MermaidBlocks.DiagramsCloseFree | pages/3_View_Report.py:33-34 | no extracted diagram contains a closing fence (non-greedy matching) |
| MermaidBlocks.ScanBodiesCloseFree | pages/3_View_Report.py:33-34 | the same for any delimiters |
| MermaidBlocks.KeptNoLonger | pages/3_View_Report.py:37 | the kept text plus the number of blocks never exceeds the length of the text |
| MermaidBlocks.NoBlockKeepsAll | pages/3_View_Report.py:37 | with no block, the substitution keeps the whole text |
| MermaidBlocks.NoDiagramsIffUnchanged | pages/3_View_Report.py:33-37 | `findall` finds nothing iff `sub` leaves the report unchanged |
| MermaidBlocks.ReportWithoutBlocks | pages/3_View_Report.py:33-37 | a report without an opening fence has no diagrams and is displayed as is |
| MermaidBlocks.PlainPrefix | pages/3_View_Report.py:33-37 | text that cannot start a match is kept character by character before the rest is scanned |
| MermaidBlocks.KeptPiecesText | pages/3_View_Report.py:37 | kept characters are reproduced by `sub` and yield no diagram |
| MermaidBlocks.BlockPrefix | pages/3_View_Report.py:33-34 | a well-formed block at the front is cut out whole, and scanning resumes after its closing fence |
| MermaidBlocks.PlainTextThenReport | pages/3_View_Report.py:33-37 | text with no backquote before a report adds no diagram and is kept verbatim in front of the substituted report |
| MermaidBlocks.DiagramThenReport | pages/3_View_Report.py:33-37 | a fenced diagram before a report is extracted first, and is removed from the displayed text |
| MermaidBlocks.MermaidPatternValid | pages/3_View_Report.py:33 | the pattern's delimiters are non-empty; the opening starts with a backquote, and the closing fence without its last character is two backquotes |
| ViewReport.MermaidKeysDistinct | pages/3_View_Report.py:44-46 | different indices give different `mermaid_diagram_{i}` keys |
| ViewReport.DiagramKeys | pages/3_View_Report.py:44-46 | one key per diagram, the i-th being `mermaid_diagram_{i}`, all pairwise distinct |
| ViewReport.DiagramEntriesShape | pages/3_View_Report.py:23-25 | two blocks per diagram: the label `Diagram {i+1}:` followed by the diagram text |
| ViewReport.DiagramSectionShape | pages/3_View_Report.py:21-25 | no diagram section without diagrams; otherwise the level-1 heading followed by the labelled diagrams |
| ViewReport.CreateDocxReport | pages/3_View_Report.py:12-27 | a fresh document whose blocks are the title heading, one paragraph per line, then the diagram section |
| ViewReport.LayoutFront | pages/3_View_Report.py:14-18 | the document opens with the level-0 title, followed by the report's lines as paragraphs |
| ViewReport.LayoutDiagrams | pages/3_View_Report.py:14-25 | the block count; the diagram heading right after the lines; each diagram's label and text at their positions |
| ViewReport.NoDiagramsNoHeading | pages/3_View_Report.py:21-22 | without diagrams the document has no diagrams heading |
| ViewReport.ParagraphsRebuildText | pages/3_View_Report.py:17-18 | there is one paragraph per newline plus one, and joining the paragraphs with newlines gives back the report text |
| ViewReport.DiagramLabelsDistinct | pages/3_View_Report.py:24 | different diagrams get different labels |
| ViewReport.ViewReportPage | pages/3_View_Report.py:29-46 | nothing without a generated report; otherwise the report with its blocks removed, the extracted diagrams, and a key for each |
| IntakeRecord.AgeValue | pages/1_Patient_Information.py:44-48 | definition: the stored `age` is the integer age, or `None` without a valid date of birth |
| IntakeRecord.BasicEntries | pages/1_Patient_Information.py:56-62 | definition: the five basic keys with their widget values and the age |
| IntakeRecord.ComplaintEntries | pages/1_Patient_Information.py:74-77 | definition: the two complaint keys with their widget values |
| IntakeRecord.MedicalEntries | pages/1_Patient_Information.py:90-94 | definition: the three medical keys with their widget values |
| IntakeRecord.TongueEntries | pages/1_Patient_Information.py:142-147 | definition: the four tongue keys; the shape is a list of options |
| IntakeRecord.PulseEntries | pages/1_Patient_Information.py:159-162 | definition: the pulse rate as an integer and the quality as a list of options |
| IntakeRecord.AdditionalEntries | pages/1_Patient_Information.py:173 | definition: the single `additional_symptoms` entry |
| IntakeRecord.FormEntries | pages/patient_information.py:6-24 | definition: the seventeen entries of the bulk update, as the six sections' entries taken together |
| PatientIntake.InDobWindow | pages/1_Patient_Information.py:30-37 | definition: a date between 1900-01-01 and today, both included |
| PatientIntake.CompleteKey | pages/1_Patient_Information.py:11 | definition: the `{section}_complete` key |
| PatientIntake.AnswerKey | pages/1_Patient_Information.py:126 | definition: the `{question}_answer` key |
| PatientIntake.DetailsKey | pages/1_Patient_Information.py:121 | definition: the `{question}_details` key |
| PatientIntake.AnswersDict | pages/1_Patient_Information.py:113-121 | definition: the answers dictionary after the first n questions; its properties are the `AnswersDict*` lemmas |
| PatientIntake.SaveAnswers | pages/1_Patient_Information.py:124-128 | definition: `patient_info` after the first n questions are saved; its properties are `SaveAnswersFrame` and `SaveAnswersValues` |
| PatientIntake.WrittenKeys | pages/1_Patient_Information.py:124-128 | definition: the keys the question save writes |
| PatientIntake.SaveCollected | pages/1_Patient_Information.py:113-130 | definition: collecting the answers and then saving them |
| PatientIntake.MarkAll | pages/1_Patient_Information.py:65-176 | definition: the flags after each listed section is marked complete, in order; its properties are `MarkAllSets` |
| ReportGeneration.BuildContext | pages/2_Generate_Report.py:85 | definition: the retrieved texts joined with newlines; `ContextSplitsIntoTexts` inverts it |
| ReportGeneration.Fill | pages/2_Generate_Report.py:52-62 | definition: the prompt template with the section, the context, the input and the section again |
| ReportGeneration.UserMessage | pages/2_Generate_Report.py:52-62 | definition: the template filled with the page's literal f-string pieces |
| ReportGeneration.Truthy | pages/2_Generate_Report.py:66 | definition: Python truthiness of an optional string; `None` and `""` are false |
| ReportGeneration.Contribution | pages/2_Generate_Report.py:66-69 | definition: a truthy section adds `"\n\n" + section + "\n" + content`, and a failed section adds nothing |
| ReportGeneration.AssembleRange | pages/2_Generate_Report.py:48-67 | definition: the contributions of a range of sections, in order |
| ReportGeneration.Assemble | pages/2_Generate_Report.py:48-74 | definition: the whole report, starting from `""`; its properties are `SectionContribution`, `EmptyReportIffAllFailed` and `RaisedSectionLeftOut` |
| ReportGeneration.FailedAmong | pages/2_Generate_Report.py:66-69 | definition: the sections warned about, in order; its properties are `FailedAmongCount` |
| MermaidBlocks.Scan | pages/3_View_Report.py:33-37 | definition: at each position a block either opens there and ends at the first closing fence, or one character is kept; scanning resumes after the block. Its properties are the scan lemmas above |
| MermaidBlocks.Findall | pages/3_View_Report.py:33-34 | definition: the bodies of the scanned blocks, in order (`re.findall`) |
| MermaidBlocks.Sub | pages/3_View_Report.py:33-37 | definition: the kept characters of the scan, each block replaced by nothing (`re.sub` with `''`) |
| ViewReport.MermaidKey | pages/3_View_Report.py:46 | definition: `mermaid_diagram_{i}` |
| ViewReport.DiagramLabel | pages/3_View_Report.py:24 | definition: `Diagram {i+1}:` |
| ViewReport.DiagramEntries | pages/3_View_Report.py:23-25 | definition: the label and body paragraphs of the first n diagrams |
| ViewReport.DiagramSection | pages/3_View_Report.py:21-25 | definition: nothing without diagrams, otherwise the level-1 heading and the diagram entries |
| ViewReport.LayoutOf | pages/3_View_Report.py:12-27 | definition: the title heading, one paragraph per line, and the diagram section |
| ViewReport.Layout | pages/3_View_Report.py:12-27 | definition: the layout of the report's `split('\n')` lines; its properties are `LayoutFront`, `LayoutDiagrams`, `NoDiagramsNoHeading` and `ParagraphsRebuildText` |
| Text.Split | pages/3_View_Report.py:17 | `split('\n')`: at least one piece, and no piece holds a newline |
| Text.Join | pages/2_Generate_Report.py:85 | definition: `"\n".join`, the parts with the separator between them |
| Text.NatToString | pages/3_View_Report.py:24 | decimal rendering: at least one digit, and two or more exactly from 10 on |
| Text.JoinSplit | pages/3_View_Report.py:17 | joining the pieces of `split('\n')` with newlines gives back the text |
| Text.SplitJoin | pages/2_Generate_Report.py:85 | splitting newline-free parts, once joined with newlines, gives the parts back |
| Text.SplitCount | pages/3_View_Report.py:17 | `split('\n')` yields one piece more than there are newlines |
| Text.NatToStringInjective | pages/3_View_Report.py:46 | different numbers render as different decimal strings |

## Left out

- Streamlit rendering is not modelled: titles, subheaders, `st.write`/`st.json`/`st.markdown`, errors, warnings, success messages and spinners. The warnings of the report loop are kept as a returned list of failed sections.
- Widget defaults read back from `patient_info` (`.get(key, default)`) are not modelled. Each widget's value is a parameter of the page method.
- The "Save All Information" button (1_Patient_Information.py:179-180) is not modelled: it only shows a message.
- `datetime.date.today()` is the parameter `today`. `strptime` of the `DD/MM/YYYY` text is left to the caller, who passes the parsed date, or `None` when parsing raised `ValueError`.
- The progress bar (1_Patient_Information.py:12-16) is not modelled as a float. The completed count is modelled, and the "more than half" gate is related to the real-number quotient in `PatientForm.ProgressGate`.
- `calculate_progress` is not part of this model: `pages/patient_information.py` calls it without defining it. `PatientForm.GenerateReportButton` takes its value as a parameter.
- `pages/patient_information.py` is a fragment of a page body: its widget values are parameters of `PatientForm.UpdatePatientInfo`.
- The sentence-embedding model, the Pinecone query (`query_pinecone`, with its `st.cache_data`) and the Groq chat client are oracles. Model name, temperature and token limits are not represented.
- `json.dumps(patient_info, indent=2)` is the parameter `userInput` of `ReportGeneration.GenerateReportPage`, because JSON serialisation is not modelled.
- Progress (2_Generate_Report.py:71) is modelled as the integer numerator i+1 of the fraction (i+1)/6. `time.sleep`, `time.time` and the elapsed-time message are not modelled.
- When every section fails, the report is the empty string, and the page stores it. The model follows this behaviour of the code, not a fatal error.
- python-docx is reduced to an ordered list of heading and paragraph blocks. The "Download as DOCX" path (`BytesIO`, saving, the download button) is not modelled.
- In the view page, diagram rendering is not modelled: `quote(match.strip())`, the Mermaid HTML/JavaScript component and the fallback `<pre>`. The view returns the raw diagram texts and their keys.
- `ViewReport.ViewReportPage` models `'generated_report' in st.session_state` as the session's optional report.
- The regular-expression engine is not modelled in general. Only the one pattern ```` ```mermaid\n(.*?)``` ```` with DOTALL is modelled, as a left-to-right scan with non-greedy matching, which is how `findall` and `sub` treat that pattern.
- `patient_info` is a `map`, so the insertion order of the Python dictionary is not modelled. That order shows only in `st.json` and `json.dumps` (2_Generate_Report.py:78, 81), and the serialised text is the parameter `userInput`, so nothing in the model depends on it.
- `app.py` (loading the index, the embedding model and the client) is not part of this model.
- MermaidBlocks.PlainTextThenReport: stated only for prefixes without a backquote, because a prefix that holds part of a fence could join with the rest of the report.
- MermaidBlocks.DiagramThenReport: stated only for diagrams in which a closing fence cannot start, because otherwise the non-greedy match would end earlier.
