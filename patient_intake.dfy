/**
 * The intake form page (pages/1_Patient_Information.py): age from the date
 * of birth, the date-of-birth window, the completed-section count, the
 * ten-questions loop and the per-section saves into `patient_info`.
 *
 * `datetime.date.today()` is the parameter `today`; `strptime` is left to
 * the caller, who passes the parsed date or `None` when the text did not
 * parse. Widget values are parameters.
 */
module PatientIntake {
  import opened Wrappers
  import opened Text
  import opened IntakeRecord

  // ------------------------------------------------------------------ dates

  /** A calendar date as a (year, month, day) triple. */
  datatype Date = Date(year: int, month: int, day: int)

  /** Date order: year first, then month, then day (Python's `date` comparison). */
  predicate Before(a: Date, b: Date) {
    a.year < b.year || (a.year == b.year && (a.month < b.month || (a.month == b.month && a.day < b.day)))
  }

  /** `(a.month, a.day) < (b.month, b.day)` as Python compares tuples. */
  predicate MonthDayBefore(a: Date, b: Date) {
    a.month < b.month || (a.month == b.month && a.day < b.day)
  }

  /** The k-th anniversary of a date: same month and day, k years later. */
  function Anniversary(born: Date, k: int): Date {
    Date(born.year + k, born.month, born.day)
  }

  /**
   * `calculate_age`: the year difference, minus one while this year's
   * birthday is still ahead. The result is the number of anniversaries
   * reached: the age-th has been reached by `today`, the next one has not.
   */
  function CalculateAge(born: Date, today: Date): (age: int)
    ensures !Before(today, Anniversary(born, age))
    ensures Before(today, Anniversary(born, age + 1))
  {
    today.year - born.year - (if MonthDayBefore(today, born) then 1 else 0)
  }

  /** The age is the only number of years with that property. */
  lemma AgeIsUnique(born: Date, today: Date, k: int)
    requires !Before(today, Anniversary(born, k)) && Before(today, Anniversary(born, k + 1))
    ensures k == CalculateAge(born, today)
  {
  }

  /** Nobody born on or before `today` has a negative age. */
  lemma AgeNonNegative(born: Date, today: Date)
    requires !Before(today, born)
    ensures CalculateAge(born, today) >= 0
  {
  }

  /** On the birthday itself the age is the plain year difference. */
  lemma AgeOnBirthday(born: Date, today: Date)
    requires today.month == born.month && today.day == born.day
    ensures CalculateAge(born, today) == today.year - born.year
  {
  }

  /** The earliest accepted date of birth, 01/01/1900. */
  const MinDate: Date := Date(1900, 1, 1)

  /** A date of birth between 01/01/1900 and today, both included. */
  predicate InDobWindow(d: Date, today: Date) {
    !Before(d, MinDate) && !Before(today, d)
  }

  /**
   * The date-of-birth check: a date that did not parse, or lies before
   * 01/01/1900 or after today, becomes `None`; any other is kept.
   */
  function ValidatedDob(parsed: Option<Date>, today: Date): (dob: Option<Date>)
    ensures dob.Some? <==> parsed.Some? && InDobWindow(parsed.value, today)
    ensures dob.Some? ==> dob == parsed
  {
    match parsed
    case None => None
    case Some(d) => if Before(d, MinDate) || Before(today, d) then None else Some(d)
  }

  /** `age = calculate_age(dob) if dob else None`. */
  function AgeFromDob(dob: Option<Date>, today: Date): (age: Option<int>)
    ensures age.Some? <==> dob.Some?
  {
    match dob
    case Some(d) => Some(CalculateAge(d, today))
    case None => None
  }

  /**
   * The age shown on the page is absent exactly when the date of birth was
   * rejected, and otherwise is a non-negative count of full years.
   */
  lemma ShownAge(parsed: Option<Date>, today: Date)
    ensures AgeFromDob(ValidatedDob(parsed, today), today).None? <==>
            parsed.None? || !InDobWindow(parsed.value, today)
    ensures AgeFromDob(ValidatedDob(parsed, today), today).Some? ==>
              var age := AgeFromDob(ValidatedDob(parsed, today), today).value;
              age >= 0 && !Before(today, Anniversary(parsed.value, age))
              && Before(today, Anniversary(parsed.value, age + 1))
  {
    if parsed.Some? && InDobWindow(parsed.value, today) {
      AgeNonNegative(parsed.value, today);
    }
  }

  // ---------------------------------------------------------- section flags

  /** The form's sections, in page order. */
  const IntakeSections: seq<string> := [
    "Basic Information", "Presenting Complaint", "Medical History & Lifestyle",
    "10 Questions for Internal Diseases", "Tongue Diagnosis", "Pulse Diagnosis", "Additional Symptoms"
  ]

  /** The session key `{section}_complete`. */
  function CompleteKey(section: string): string {
    section + "_complete"
  }

  /** `st.session_state.get(key, False)`. */
  predicate FlagSet(flags: map<string, bool>, key: string) {
    key in flags && flags[key]
  }

  /** How many of the first n sections have their `_complete` flag set. */
  function CompletedAmong(sections: seq<string>, flags: map<string, bool>, n: nat): (count: nat)
    requires n <= |sections|
    ensures count <= n
  {
    if n == 0 then 0
    else CompletedAmong(sections, flags, n - 1) + (if FlagSet(flags, CompleteKey(sections[n - 1])) then 1 else 0)
  }

  /** The count is n exactly when every one of the n flags is set, and 0 exactly when none is. */
  lemma {:induction false} CompletedAmongExtremes(sections: seq<string>, flags: map<string, bool>, n: nat)
    requires n <= |sections|
    ensures CompletedAmong(sections, flags, n) == n <==>
            forall i :: 0 <= i < n ==> FlagSet(flags, CompleteKey(sections[i]))
    ensures CompletedAmong(sections, flags, n) == 0 <==>
            forall i :: 0 <= i < n ==> !FlagSet(flags, CompleteKey(sections[i]))
  {
    if n > 0 {
      CompletedAmongExtremes(sections, flags, n - 1);
    }
  }

  // ---------------------------------------------------------- ten questions

  /** The ten questions for internal diseases, in page order. */
  const Questions: seq<string> := [
    "Chills and/or fever",
    "Sweating and/or hot flushes",
    "Headaches (type, frequency, location) or dizziness",
    "Chest and/or digestion problems",
    "Food & appetite issues",
    "Stool & urination problems",
    "Sleep issues",
    "Deafness or tinnitus",
    "Thirst & drink preferences",
    "Pain (type, quality & location)"
  ]

  /** `f'{question}_answer'` */
  function AnswerKey(q: string): string {
    q + "_answer"
  }

  /** `f'{question}_details'` */
  function DetailsKey(q: string): string {
    q + "_details"
  }

  /** An answer key is never a details key: they end in different letters. */
  lemma AnswerKeyIsNotDetailsKey(a: string, b: string)
    ensures AnswerKey(a) != DetailsKey(b)
  {
    var x, y := AnswerKey(a), DetailsKey(b);
    assert x[|x| - 1] == 'r';
    assert y[|y| - 1] == 's';
  }

  /** No question is repeated. */
  predicate Distinct(qs: seq<string>) {
    forall i, j :: 0 <= i < j < |qs| ==> qs[i] != qs[j]
  }

  /**
   * Questions whose `answers` keys cannot collide: no question is repeated
   * and none is the details key of another.
   */
  predicate WellFormedQuestions(qs: seq<string>) {
    Distinct(qs) && forall i, j :: 0 <= i < |qs| && 0 <= j < |qs| ==> qs[i] != DetailsKey(qs[j])
  }

  /** The ten questions of the page are well formed. */
  lemma QuestionsWellFormed()
    ensures WellFormedQuestions(Questions)
  {
    QuestionsDistinct();
    QuestionsAreNotDetailsKeys();
  }

  lemma QuestionsDistinct()
    ensures Distinct(Questions)
  {
  }

  lemma QuestionsAreNotDetailsKeys()
    ensures forall i, j :: 0 <= i < |Questions| && 0 <= j < |Questions| ==> Questions[i] != DetailsKey(Questions[j])
  {
    // the only pairs whose lengths would allow a collision differ in their first letter
    assert Questions[1][0] != DetailsKey(Questions[0])[0];
    assert Questions[7][0] != DetailsKey(Questions[6])[0];
  }

  /** In well-formed questions the keys of question n-1 differ from those of every earlier one. */
  lemma KeysApart(qs: seq<string>, n: nat)
    requires 0 < n <= |qs| && WellFormedQuestions(qs)
    ensures forall i :: 0 <= i < n - 1 ==>
              qs[i] != qs[n - 1] && qs[i] != DetailsKey(qs[n - 1]) && DetailsKey(qs[i]) != qs[n - 1]
              && DetailsKey(qs[i]) != DetailsKey(qs[n - 1])
    ensures qs[n - 1] != DetailsKey(qs[n - 1])
  {
    forall i | 0 <= i < n - 1
      ensures DetailsKey(qs[i]) != DetailsKey(qs[n - 1])
    {
      if DetailsKey(qs[i]) == DetailsKey(qs[n - 1]) {
        SuffixCancels(qs[i], qs[n - 1], "_details");
      }
    }
  }

  /** The widget values for one question: the Yes/No answer and the details text. */
  datatype QuestionInput = QuestionInput(answer: string, details: string)

  /**
   * The `answers` dictionary after the first n questions: each question maps
   * to its answer, and `{question}_details` is added only for a "Yes".
   */
  function AnswersDict(qs: seq<string>, inputs: seq<QuestionInput>, n: nat): map<string, string>
    requires n <= |qs| == |inputs|
  {
    if n == 0 then map[]
    else
      var d := AnswersDict(qs, inputs, n - 1)[qs[n - 1] := inputs[n - 1].answer];
      if inputs[n - 1].answer == "Yes" then d[DetailsKey(qs[n - 1]) := inputs[n - 1].details] else d
  }

  /**
   * What the questions loop collects: every question's answer, and the
   * details exactly for the "Yes" answers.
   */
  lemma {:induction false} AnswersDictContents(qs: seq<string>, inputs: seq<QuestionInput>, n: nat)
    requires n <= |qs| == |inputs| && WellFormedQuestions(qs)
    ensures forall i :: 0 <= i < n ==>
              qs[i] in AnswersDict(qs, inputs, n) && AnswersDict(qs, inputs, n)[qs[i]] == inputs[i].answer
    ensures forall i :: 0 <= i < n ==>
              (DetailsKey(qs[i]) in AnswersDict(qs, inputs, n) <==> inputs[i].answer == "Yes")
    ensures forall i :: 0 <= i < n && inputs[i].answer == "Yes" ==>
              AnswersDict(qs, inputs, n)[DetailsKey(qs[i])] == inputs[i].details
  {
    if n > 0 {
      AnswersDictContents(qs, inputs, n - 1);
      KeysApart(qs, n);
      DetailsKeyNotYetCollected(qs, inputs, n);
    }
  }

  /** Before question n-1 is asked, its details key is not in the dictionary. */
  lemma DetailsKeyNotYetCollected(qs: seq<string>, inputs: seq<QuestionInput>, n: nat)
    requires 0 < n <= |qs| == |inputs| && WellFormedQuestions(qs)
    ensures DetailsKey(qs[n - 1]) !in AnswersDict(qs, inputs, n - 1)
  {
    AnswersDictDomain(qs, inputs, n - 1);
    KeysApart(qs, n);
    if DetailsKey(qs[n - 1]) in AnswersDict(qs, inputs, n - 1) {
      var j :| 0 <= j < n - 1 && (DetailsKey(qs[n - 1]) == qs[j] || DetailsKey(qs[n - 1]) == DetailsKey(qs[j]));
      assert false;
    }
  }

  /** The collected answers hold no key other than the questions and their details keys. */
  lemma {:induction false} AnswersDictDomain(qs: seq<string>, inputs: seq<QuestionInput>, n: nat)
    requires n <= |qs| == |inputs|
    ensures forall k :: k in AnswersDict(qs, inputs, n) ==>
              exists i :: 0 <= i < n && (k == qs[i] || k == DetailsKey(qs[i]))
  {
    if n > 0 {
      AnswersDictDomain(qs, inputs, n - 1);
      forall k | k in AnswersDict(qs, inputs, n)
        ensures exists i :: 0 <= i < n && (k == qs[i] || k == DetailsKey(qs[i]))
      {
        if k !in AnswersDict(qs, inputs, n - 1) {
          assert k == qs[n - 1] || k == DetailsKey(qs[n - 1]);
        }
      }
    }
  }

  /** The collected answers hold what `auto_save_questions` reads. */
  predicate CoversQuestions(qs: seq<string>, answers: map<string, string>) {
    forall i :: 0 <= i < |qs| ==>
      qs[i] in answers && (answers[qs[i]] == "Yes" ==> DetailsKey(qs[i]) in answers)
  }

  lemma AnswersDictCovers(qs: seq<string>, inputs: seq<QuestionInput>)
    requires |qs| == |inputs| && WellFormedQuestions(qs)
    ensures CoversQuestions(qs, AnswersDict(qs, inputs, |qs|))
  {
    AnswersDictContents(qs, inputs, |qs|);
  }

  /** The questions loop of the page: fills `answers` from the widgets. */
  method CollectAnswers(qs: seq<string>, inputs: seq<QuestionInput>) returns (answers: map<string, string>)
    requires |qs| == |inputs|
    ensures answers == AnswersDict(qs, inputs, |qs|)
  {
    answers := map[];
    for i := 0 to |qs|
      invariant answers == AnswersDict(qs, inputs, i)
    {
      answers := answers[qs[i] := inputs[i].answer];
      if answers[qs[i]] == "Yes" {
        answers := answers[DetailsKey(qs[i]) := inputs[i].details];
      }
    }
  }

  /** `patient_info` after `auto_save_questions` has handled the first n questions. */
  function SaveAnswers(info: map<string, Value>, qs: seq<string>, answers: map<string, string>, n: nat)
    : map<string, Value>
    requires n <= |qs| && CoversQuestions(qs, answers)
  {
    if n == 0 then info
    else
      var q := qs[n - 1];
      var saved := SaveAnswers(info, qs, answers, n - 1)[AnswerKey(q) := Str(answers[q])];
      if answers[q] == "Yes" then saved[DetailsKey(q) := Str(answers[DetailsKey(q)])] else saved
  }

  /** The keys `auto_save_questions` writes for the first n questions. */
  function WrittenKeys(qs: seq<string>, answers: map<string, string>, n: nat): set<string>
    requires n <= |qs| && CoversQuestions(qs, answers)
  {
    if n == 0 then {}
    else
      var q := qs[n - 1];
      WrittenKeys(qs, answers, n - 1) + {AnswerKey(q)} + (if answers[q] == "Yes" then {DetailsKey(q)} else {})
  }

  /** Saving the answers adds the written keys and leaves every other entry as it was. */
  lemma {:induction false} SaveAnswersFrame(info: map<string, Value>, qs: seq<string>,
                                            answers: map<string, string>, n: nat)
    requires n <= |qs| && CoversQuestions(qs, answers)
    ensures SaveAnswers(info, qs, answers, n).Keys == info.Keys + WrittenKeys(qs, answers, n)
    ensures forall k :: k in info && k !in WrittenKeys(qs, answers, n) ==>
              SaveAnswers(info, qs, answers, n)[k] == info[k]
  {
    if n > 0 {
      SaveAnswersFrame(info, qs, answers, n - 1);
    }
  }

  /**
   * Every answer is saved under `{question}_answer`, and the details under
   * `{question}_details` exactly for the "Yes" answers; a "No" answer writes
   * no details key at all.
   */
  lemma {:induction false} SaveAnswersValues(info: map<string, Value>, qs: seq<string>,
                                             answers: map<string, string>, n: nat)
    requires n <= |qs| && CoversQuestions(qs, answers) && Distinct(qs)
    ensures forall i :: 0 <= i < n ==>
              AnswerKey(qs[i]) in SaveAnswers(info, qs, answers, n)
              && SaveAnswers(info, qs, answers, n)[AnswerKey(qs[i])] == Str(answers[qs[i]])
    ensures forall i :: 0 <= i < n && answers[qs[i]] == "Yes" ==>
              DetailsKey(qs[i]) in SaveAnswers(info, qs, answers, n)
              && SaveAnswers(info, qs, answers, n)[DetailsKey(qs[i])] == Str(answers[DetailsKey(qs[i])])
  {
    if n > 0 {
      SaveAnswersValues(info, qs, answers, n - 1);
      var q := qs[n - 1];
      forall i | 0 <= i < n - 1
        ensures AnswerKey(qs[i]) != AnswerKey(q) && AnswerKey(qs[i]) != DetailsKey(q)
        ensures DetailsKey(qs[i]) != AnswerKey(q) && DetailsKey(qs[i]) != DetailsKey(q)
      {
        AnswerKeyIsNotDetailsKey(qs[i], q);
        AnswerKeyIsNotDetailsKey(q, qs[i]);
        if AnswerKey(qs[i]) == AnswerKey(q) {
          SuffixCancels(qs[i], q, "_answer");
        }
        if DetailsKey(qs[i]) == DetailsKey(q) {
          SuffixCancels(qs[i], q, "_details");
        }
      }
      AnswerKeyIsNotDetailsKey(q, q);
    }
  }

  /** Every written key is the answer key of a question or the details key of a "Yes" answer. */
  lemma {:induction false} WrittenKeysDomain(qs: seq<string>, answers: map<string, string>, n: nat)
    requires n <= |qs| && CoversQuestions(qs, answers)
    ensures forall k :: k in WrittenKeys(qs, answers, n) ==>
              exists i :: 0 <= i < n && (k == AnswerKey(qs[i]) || (answers[qs[i]] == "Yes" && k == DetailsKey(qs[i])))
  {
    if n > 0 {
      WrittenKeysDomain(qs, answers, n - 1);
      forall k | k in WrittenKeys(qs, answers, n)
        ensures exists i :: 0 <= i < n && (k == AnswerKey(qs[i]) || (answers[qs[i]] == "Yes" && k == DetailsKey(qs[i])))
      {
        if k !in WrittenKeys(qs, answers, n - 1) {
          assert k == AnswerKey(qs[n - 1]) || (answers[qs[n - 1]] == "Yes" && k == DetailsKey(qs[n - 1]));
        }
      }
    }
  }

  /** A question not answered "Yes" never gets a details key written. */
  lemma NoAnswerWritesNoDetails(qs: seq<string>, answers: map<string, string>, n: nat, i: nat)
    requires i < n <= |qs| && CoversQuestions(qs, answers) && Distinct(qs)
    requires answers[qs[i]] != "Yes"
    ensures DetailsKey(qs[i]) !in WrittenKeys(qs, answers, n)
  {
    WrittenKeysDomain(qs, answers, n);
    if DetailsKey(qs[i]) in WrittenKeys(qs, answers, n) {
      var j :| 0 <= j < n && (DetailsKey(qs[i]) == AnswerKey(qs[j]) || (answers[qs[j]] == "Yes" && DetailsKey(qs[i]) == DetailsKey(qs[j])));
      AnswerKeyIsNotDetailsKey(qs[j], qs[i]);
      SuffixCancels(qs[i], qs[j], "_details");
      assert false;
    }
  }

  /** `patient_info` after the answers collected from `inputs` have been saved. */
  function SaveCollected(info: map<string, Value>, qs: seq<string>, inputs: seq<QuestionInput>): map<string, Value>
    requires |inputs| == |qs| && WellFormedQuestions(qs)
  {
    AnswersDictCovers(qs, inputs);
    SaveAnswers(info, qs, AnswersDict(qs, inputs, |qs|), |qs|)
  }

  // ------------------------------------------------------------------ saves
  //
  // Each save writes into `st.session_state.patient_info`, which must exist:
  // reading the attribute of a session without it raises. The page creates it
  // before the first save.

  /** `auto_save_basic` */
  method AutoSaveBasic(session: Session, v: FormValues, age: Option<int>)
    requires session.hasPatientInfo
    modifies session
    ensures session.patientInfo == old(session.patientInfo) + BasicEntries(v, age)
    ensures session.flags == old(session.flags) && session.generateReport == old(session.generateReport)
    ensures session.generatedReport == old(session.generatedReport)
    ensures session.hasPatientInfo == old(session.hasPatientInfo)
  {
    session.patientInfo := session.patientInfo + BasicEntries(v, age);
  }

  /** `auto_save_complaint` */
  method AutoSaveComplaint(session: Session, v: FormValues)
    requires session.hasPatientInfo
    modifies session
    ensures session.patientInfo == old(session.patientInfo) + ComplaintEntries(v)
    ensures session.flags == old(session.flags) && session.generateReport == old(session.generateReport)
    ensures session.generatedReport == old(session.generatedReport)
    ensures session.hasPatientInfo == old(session.hasPatientInfo)
  {
    session.patientInfo := session.patientInfo + ComplaintEntries(v);
  }

  /** `auto_save_medical` */
  method AutoSaveMedical(session: Session, v: FormValues)
    requires session.hasPatientInfo
    modifies session
    ensures session.patientInfo == old(session.patientInfo) + MedicalEntries(v)
    ensures session.flags == old(session.flags) && session.generateReport == old(session.generateReport)
    ensures session.generatedReport == old(session.generatedReport)
    ensures session.hasPatientInfo == old(session.hasPatientInfo)
  {
    session.patientInfo := session.patientInfo + MedicalEntries(v);
  }

  /** `auto_save_questions`: one `_answer` entry per question, a `_details` entry per "Yes". */
  method AutoSaveQuestions(session: Session, qs: seq<string>, answers: map<string, string>)
    requires CoversQuestions(qs, answers)
    requires session.hasPatientInfo
    modifies session
    ensures session.patientInfo == SaveAnswers(old(session.patientInfo), qs, answers, |qs|)
    ensures session.flags == old(session.flags) && session.generateReport == old(session.generateReport)
    ensures session.generatedReport == old(session.generatedReport)
    ensures session.hasPatientInfo == old(session.hasPatientInfo)
  {
    for i := 0 to |qs|
      invariant session.patientInfo == SaveAnswers(old(session.patientInfo), qs, answers, i)
      invariant session.flags == old(session.flags) && session.generateReport == old(session.generateReport)
      invariant session.generatedReport == old(session.generatedReport)
      invariant session.hasPatientInfo == old(session.hasPatientInfo)
    {
      var q := qs[i];
      session.patientInfo := session.patientInfo[AnswerKey(q) := Str(answers[q])];
      if answers[q] == "Yes" {
        session.patientInfo := session.patientInfo[DetailsKey(q) := Str(answers[DetailsKey(q)])];
      }
    }
  }

  /** `auto_save_tongue` */
  method AutoSaveTongue(session: Session, v: FormValues)
    requires session.hasPatientInfo
    modifies session
    ensures session.patientInfo == old(session.patientInfo) + TongueEntries(v)
    ensures session.flags == old(session.flags) && session.generateReport == old(session.generateReport)
    ensures session.generatedReport == old(session.generatedReport)
    ensures session.hasPatientInfo == old(session.hasPatientInfo)
  {
    session.patientInfo := session.patientInfo + TongueEntries(v);
  }

  /** `auto_save_pulse` */
  method AutoSavePulse(session: Session, v: FormValues)
    requires session.hasPatientInfo
    modifies session
    ensures session.patientInfo == old(session.patientInfo) + PulseEntries(v)
    ensures session.flags == old(session.flags) && session.generateReport == old(session.generateReport)
    ensures session.generatedReport == old(session.generatedReport)
    ensures session.hasPatientInfo == old(session.hasPatientInfo)
  {
    session.patientInfo := session.patientInfo + PulseEntries(v);
  }

  /** `auto_save_additional`: a single-key assignment. */
  method AutoSaveAdditional(session: Session, v: FormValues)
    requires session.hasPatientInfo
    modifies session
    ensures session.patientInfo == old(session.patientInfo) + AdditionalEntries(v)
    ensures session.flags == old(session.flags) && session.generateReport == old(session.generateReport)
    ensures session.generatedReport == old(session.generatedReport)
    ensures session.hasPatientInfo == old(session.hasPatientInfo)
  {
    session.patientInfo := session.patientInfo["additional_symptoms" := Str(v.additionalSymptoms)];
  }

  /** Marks one section complete: `st.session_state["{section}_complete"] = True`. */
  method MarkComplete(session: Session, section: string)
    modifies session
    ensures session.flags == old(session.flags)[CompleteKey(section) := true]
    ensures session.patientInfo == old(session.patientInfo) && session.generateReport == old(session.generateReport)
    ensures session.generatedReport == old(session.generatedReport)
    ensures session.hasPatientInfo == old(session.hasPatientInfo)
  {
    session.flags := session.flags[CompleteKey(section) := true];
  }

  /** The flags after `{section}_complete` has been set for the first n sections. */
  function MarkAll(flags: map<string, bool>, sections: seq<string>, n: nat): map<string, bool>
    requires n <= |sections|
  {
    if n == 0 then flags else MarkAll(flags, sections, n - 1)[CompleteKey(sections[n - 1]) := true]
  }

  /** Marking sets every one of the n flags, so all n count as completed, and leaves other flags alone. */
  lemma {:induction false} MarkAllSets(flags: map<string, bool>, sections: seq<string>, n: nat)
    requires n <= |sections|
    ensures forall i :: 0 <= i < n ==> FlagSet(MarkAll(flags, sections, n), CompleteKey(sections[i]))
    ensures CompletedAmong(sections, MarkAll(flags, sections, n), n) == n
    ensures forall k :: k in flags && (forall i :: 0 <= i < n ==> k != CompleteKey(sections[i])) ==>
              k in MarkAll(flags, sections, n) && MarkAll(flags, sections, n)[k] == flags[k]
  {
    if n > 0 {
      MarkAllSets(flags, sections, n - 1);
    }
    CompletedAmongExtremes(sections, MarkAll(flags, sections, n), n);
  }

  // ------------------------------------------------------------------- page

  /**
   * The body of the page after the age is known: each section's save
   * followed by its `_complete` flag, in page order, with the answers to the
   * questions collected just before they are saved.
   */
  method FillIntakeForm(session: Session, sections: seq<string>, qs: seq<string>, v: FormValues,
                        age: Option<int>, inputs: seq<QuestionInput>)
    requires |sections| == 7 && |inputs| == |qs| && WellFormedQuestions(qs)
    requires session.hasPatientInfo
    modifies session
    ensures session.patientInfo ==
              SaveCollected(old(session.patientInfo) + BasicEntries(v, age) + ComplaintEntries(v) + MedicalEntries(v),
                            qs, inputs)
              + TongueEntries(v) + PulseEntries(v) + AdditionalEntries(v)
    ensures session.flags == MarkAll(old(session.flags), sections, 7)
    ensures session.generateReport == old(session.generateReport)
    ensures session.generatedReport == old(session.generatedReport)
    ensures session.hasPatientInfo == old(session.hasPatientInfo)
  {
    ghost var flags0 := session.flags;
    AutoSaveBasic(session, v, age);
    MarkComplete(session, sections[0]);
    assert session.flags == MarkAll(flags0, sections, 1);
    AutoSaveComplaint(session, v);
    MarkComplete(session, sections[1]);
    assert session.flags == MarkAll(flags0, sections, 2);
    AutoSaveMedical(session, v);
    MarkComplete(session, sections[2]);
    assert session.flags == MarkAll(flags0, sections, 3);
    var answers := CollectAnswers(qs, inputs);
    AnswersDictCovers(qs, inputs);
    AutoSaveQuestions(session, qs, answers);
    MarkComplete(session, sections[3]);
    assert session.flags == MarkAll(flags0, sections, 4);
    AutoSaveTongue(session, v);
    MarkComplete(session, sections[4]);
    assert session.flags == MarkAll(flags0, sections, 5);
    AutoSavePulse(session, v);
    MarkComplete(session, sections[5]);
    assert session.flags == MarkAll(flags0, sections, 6);
    AutoSaveAdditional(session, v);
    MarkComplete(session, sections[6]);
  }

  /**
   * `patient_info_page`: the completed-section count is taken before this
   * run's saves (the progress bar shows the previous run), `patient_info` is
   * created empty when the session has none, the date of birth is checked
   * and the age derived, then every section is saved and marked complete, so
   * that afterwards all seven sections count as completed.
   */
  method RunPatientInfoPage(session: Session, v: FormValues, parsedDob: Option<Date>, today: Date,
                            inputs: seq<QuestionInput>)
    returns (completedBefore: nat, age: Option<int>)
    requires |inputs| == |Questions|
    modifies session
    ensures WellFormedQuestions(Questions)
    ensures completedBefore == CompletedAmong(IntakeSections, old(session.flags), |IntakeSections|)
    ensures age == AgeFromDob(ValidatedDob(parsedDob, today), today)
    ensures session.hasPatientInfo
    ensures session.patientInfo ==
              SaveCollected((if old(session.hasPatientInfo) then old(session.patientInfo) else map[])
                            + BasicEntries(v, age) + ComplaintEntries(v) + MedicalEntries(v),
                            Questions, inputs)
              + TongueEntries(v) + PulseEntries(v) + AdditionalEntries(v)
    ensures session.flags == MarkAll(old(session.flags), IntakeSections, |IntakeSections|)
    ensures CompletedAmong(IntakeSections, session.flags, |IntakeSections|) == |IntakeSections|
    ensures session.generateReport == old(session.generateReport)
    ensures session.generatedReport == old(session.generatedReport)
  {
    completedBefore := CompletedAmong(IntakeSections, session.flags, |IntakeSections|);
    if !session.hasPatientInfo {
      session.patientInfo := map[];
      session.hasPatientInfo := true;
    }
    var dob := ValidatedDob(parsedDob, today);
    age := AgeFromDob(dob, today);
    QuestionsWellFormed();
    FillIntakeForm(session, IntakeSections, Questions, v, age, inputs);
    MarkAllSets(old(session.flags), IntakeSections, |IntakeSections|);
  }
}
