/**
 * The single-page variant of the form (pages/patient_information.py): one
 * bulk update of `patient_info` with every widget value, and the
 * "Generate Report" button, which starts report generation only when more
 * than half of the form is complete.
 */
module PatientForm {
  import opened Wrappers
  import opened IntakeRecord

  /**
   * The bulk `patient_info.update({...})` with all seventeen form keys, on a
   * session that holds `patient_info` (without it the attribute read raises).
   */
  method UpdatePatientInfo(session: Session, v: FormValues, age: Option<int>)
    requires session.hasPatientInfo
    modifies session
    ensures session.patientInfo == old(session.patientInfo) + FormEntries(v, age)
    ensures session.flags == old(session.flags) && session.generateReport == old(session.generateReport)
    ensures session.generatedReport == old(session.generatedReport)
    ensures session.hasPatientInfo == old(session.hasPatientInfo)
  {
    session.patientInfo := session.patientInfo + FormEntries(v, age);
  }

  /**
   * One bulk update leaves `patient_info` exactly as the six per-section
   * saves of the multi-section page do when they run in page order.
   */
  lemma {:induction false} BulkUpdateMatchesSectionSaves(info: map<string, Value>, v: FormValues, age: Option<int>)
    ensures info + FormEntries(v, age) ==
            info + BasicEntries(v, age) + ComplaintEntries(v) + MedicalEntries(v)
            + TongueEntries(v) + PulseEntries(v) + AdditionalEntries(v)
  {
    MergeSixParts(info, BasicEntries(v, age), ComplaintEntries(v), MedicalEntries(v),
                  TongueEntries(v), PulseEntries(v), AdditionalEntries(v));
  }

  /** The keys each section writes, and the seventeen keys of the form's dictionary literal. */
  const BasicKeys: set<string> := {"name", "dob", "age", "gender", "occupation"}
  const ComplaintKeys: set<string> := {"chief_complaint", "complaint_background"}
  const MedicalKeys: set<string> := {"medical_history", "lifestyle", "current_medications"}
  const TongueKeys: set<string> := {"tongue_color", "tongue_coating", "tongue_shape", "tongue_moisture"}
  const PulseKeys: set<string> := {"pulse_rate", "pulse_quality"}
  const FormKeys: set<string> :=
    BasicKeys + ComplaintKeys + MedicalKeys + TongueKeys + PulseKeys + {"additional_symptoms"}

  /** The keys each section writes. */
  lemma SectionKeys(v: FormValues, age: Option<int>)
    ensures BasicEntries(v, age).Keys == BasicKeys
    ensures ComplaintEntries(v).Keys == ComplaintKeys
    ensures MedicalEntries(v).Keys == MedicalKeys
    ensures TongueEntries(v).Keys == TongueKeys
    ensures PulseEntries(v).Keys == PulseKeys
    ensures AdditionalEntries(v).Keys == {"additional_symptoms"}
  {
  }

  /** The bulk update writes exactly the seventeen form keys. */
  lemma FormEntriesKeys(v: FormValues, age: Option<int>)
    ensures FormEntries(v, age).Keys == FormKeys
  {
    SectionKeys(v, age);
  }

  /**
   * After the bulk update every form key holds the form's value and every
   * other key of `patient_info` keeps its old value; no key is dropped.
   */
  lemma UpdateWritesFormKeys(info: map<string, Value>, v: FormValues, age: Option<int>)
    ensures (info + FormEntries(v, age)).Keys == info.Keys + FormKeys
    ensures forall k :: k in FormKeys ==> k in FormEntries(v, age) && (info + FormEntries(v, age))[k] == FormEntries(v, age)[k]
    ensures forall k :: k in info && k !in FormKeys ==> (info + FormEntries(v, age))[k] == info[k]
  {
    FormEntriesKeys(v, age);
  }

  /** More than half of `total` sections complete, without leaving the integers. */
  predicate MoreThanHalf(completed: int, total: int) {
    2 * completed > total
  }

  /**
   * The progress fraction `completed / total` exceeds 0.5 exactly when more
   * than half of the sections are complete.
   */
  lemma ProgressGate(completed: nat, total: nat)
    requires total > 0
    ensures (completed as real) / (total as real) > 0.5 <==> MoreThanHalf(completed, total)
  {
    var c, t := completed as real, total as real;
    var q := c / t;
    assert q * t == c;
    Distribute(q, t);
    if q > 0.5 {
      PositiveProduct(q - 0.5, t);
      assert c - 0.5 * t > 0.0;
    } else {
      PositiveProduct(0.5 - q, t);
      Distribute(q, t);
      assert c - 0.5 * t <= 0.0;
    }
  }

  /** Taking half of `t` off a product. */
  lemma Distribute(q: real, t: real)
    ensures (q - 0.5) * t == q * t - 0.5 * t
    ensures (0.5 - q) * t == 0.5 * t - q * t
  {
  }

  /** The sign of a product with a positive factor. */
  lemma PositiveProduct(x: real, t: real)
    requires t > 0.0
    ensures x > 0.0 ==> x * t > 0.0
    ensures x >= 0.0 ==> x * t >= 0.0
  {
  }

  /**
   * The "Generate Report" button: a click with progress above one half sets
   * `generate_report`; otherwise the session is left as it was (the warning
   * is only shown). The flag is never cleared here.
   */
  method GenerateReportButton(session: Session, clicked: bool, progress: real) returns (accepted: bool)
    modifies session
    ensures accepted <==> clicked && progress > 0.5
    ensures session.generateReport == (old(session.generateReport) || accepted)
    ensures session.patientInfo == old(session.patientInfo) && session.flags == old(session.flags)
    ensures session.generatedReport == old(session.generatedReport)
    ensures session.hasPatientInfo == old(session.hasPatientInfo)
  {
    accepted := false;
    if clicked {
      if progress > 0.5 {
        session.generateReport := true;
        accepted := true;
      }
    }
  }

  /** The gate at the boundary: five of ten sections is refused, six of ten accepted. */
  lemma GateBoundary()
    ensures !MoreThanHalf(5, 10) && MoreThanHalf(6, 10)
    ensures (5 as real) / (10 as real) <= 0.5 && (6 as real) / (10 as real) > 0.5
  {
    ProgressGate(5, 10);
    ProgressGate(6, 10);
  }
}
