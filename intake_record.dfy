/**
 * The patient record and the session it lives in. Streamlit's
 * `st.session_state` is one object shared by every page; the pages update its
 * `patient_info` dictionary, its `{section}_complete` flags, the
 * `generate_report` flag and the `generated_report` text in place.
 */
module IntakeRecord {
  import opened Wrappers

  /** A value stored in `patient_info`: text, an integer, Python's `None`, or a list of options. */
  datatype Value = Str(text: string) | Int(number: int) | Null | StrList(items: seq<string>)

  /** `age` is an optional integer in the record: `None` when no valid date of birth was given. */
  function AgeValue(age: Option<int>): Value {
    match age
    case Some(years) => Int(years)
    case None => Null
  }

  /** The widget values of the intake form other than the derived age. */
  datatype FormValues = FormValues(
    name: string,
    dobText: string,
    gender: string,
    occupation: string,
    chiefComplaint: string,
    complaintBackground: string,
    medicalHistory: string,
    lifestyle: string,
    currentMedications: string,
    tongueColor: string,
    tongueCoating: string,
    tongueShape: seq<string>,
    tongueMoisture: string,
    pulseRate: int,
    pulseQuality: seq<string>,
    additionalSymptoms: string)

  /** The entries `auto_save_basic` writes. */
  function BasicEntries(v: FormValues, age: Option<int>): map<string, Value> {
    map["name" := Str(v.name), "dob" := Str(v.dobText), "age" := AgeValue(age),
        "gender" := Str(v.gender), "occupation" := Str(v.occupation)]
  }

  /** The entries `auto_save_complaint` writes. */
  function ComplaintEntries(v: FormValues): map<string, Value> {
    map["chief_complaint" := Str(v.chiefComplaint), "complaint_background" := Str(v.complaintBackground)]
  }

  /** The entries `auto_save_medical` writes. */
  function MedicalEntries(v: FormValues): map<string, Value> {
    map["medical_history" := Str(v.medicalHistory), "lifestyle" := Str(v.lifestyle),
        "current_medications" := Str(v.currentMedications)]
  }

  /** The entries `auto_save_tongue` writes. */
  function TongueEntries(v: FormValues): map<string, Value> {
    map["tongue_color" := Str(v.tongueColor), "tongue_coating" := Str(v.tongueCoating),
        "tongue_shape" := StrList(v.tongueShape), "tongue_moisture" := Str(v.tongueMoisture)]
  }

  /** The entries `auto_save_pulse` writes. */
  function PulseEntries(v: FormValues): map<string, Value> {
    map["pulse_rate" := Int(v.pulseRate), "pulse_quality" := StrList(v.pulseQuality)]
  }

  /** The entry `auto_save_additional` writes. */
  function AdditionalEntries(v: FormValues): map<string, Value> {
    map["additional_symptoms" := Str(v.additionalSymptoms)]
  }

  /**
   * The seventeen keys of the whole form, each with its widget value: the
   * entries of the six single-page sections taken together.
   */
  function FormEntries(v: FormValues, age: Option<int>): map<string, Value> {
    BasicEntries(v, age) + ComplaintEntries(v) + MedicalEntries(v)
    + TongueEntries(v) + PulseEntries(v) + AdditionalEntries(v)
  }

  /** Merging dictionaries is associative (later entries win either way). */
  lemma MergeAssociates<K, V>(a: map<K, V>, b: map<K, V>, c: map<K, V>)
    ensures a + (b + c) == a + b + c
  {
  }

  /** Merging one combined dictionary is merging its six parts one after another. */
  lemma MergeSixParts<K, V>(info: map<K, V>, b: map<K, V>, c: map<K, V>, m: map<K, V>,
                            t: map<K, V>, p: map<K, V>, a: map<K, V>)
    ensures info + (b + c + m + t + p + a) == info + b + c + m + t + p + a
  {
    MergeAssociates(info, b + c + m + t + p, a);
    MergeAssociates(info, b + c + m + t, p);
    MergeAssociates(info, b + c + m, t);
    MergeAssociates(info, b + c, m);
    MergeAssociates(info, b, c);
  }

  /** The mutable part of `st.session_state` that the pages touch. */
  class Session {
    /** Whether `patient_info` is in `st.session_state` at all. */
    var hasPatientInfo: bool
    /** `st.session_state.patient_info`, meaningful once `hasPatientInfo` holds. */
    var patientInfo: map<string, Value>
    /** The `{section}_complete` entries; an absent key reads as `False`. */
    var flags: map<string, bool>
    /** `st.session_state.generate_report`; an absent key reads as `False`. */
    var generateReport: bool
    /** `st.session_state.generated_report`, absent until a report was generated. */
    var generatedReport: Option<string>

    /** A fresh session: no key is set. */
    constructor ()
      ensures !hasPatientInfo && patientInfo == map[] && flags == map[]
      ensures !generateReport && generatedReport == None
    {
      hasPatientInfo := false;
      patientInfo := map[];
      flags := map[];
      generateReport := false;
      generatedReport := None;
    }
  }
}
