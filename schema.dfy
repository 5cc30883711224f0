/**
 * The records of the three tables the core reads and writes, and the five
 * development-status labels stored in `assessments.status`.
 * Serial row ids of `assessment_values` and the timestamp columns are not modelled.
 */
module Schema {
  import opened Wrappers

  datatype Village = Village(id: int, name: string, district: string, regency: string, province: string)

  /**
   * An assessment of one village for one year. `status`, `totalScore` and
   * `dimensionScores` are absent (`None`) until the assessment is calculated;
   * `totalScore` is the numeric(5,2) column, so it holds a two-decimal value.
   */
  datatype Assessment = Assessment(
    id: int,
    villageId: int,
    year: int,
    status: Option<string>,
    totalScore: Option<real>,
    dimensionScores: Option<map<string, real>>)

  /** One row of `assessment_values`: the score (1..5) given to one indicator. */
  datatype AssessmentValue = AssessmentValue(assessmentId: int, indicatorCode: string, value: int)

  /** An assessment joined with its village, as the list endpoint returns it. */
  datatype AssessmentWithVillage = AssessmentWithVillage(assessment: Assessment, village: Option<Village>)

  /** An assessment with its village and all of its value rows, as the detail endpoint returns it. */
  datatype AssessmentDetail = AssessmentDetail(assessment: Assessment, village: Village, values: seq<AssessmentValue>)

  /** The five development statuses, from lowest to highest. */
  datatype Status = SangatTertinggal | Tertinggal | Berkembang | Maju | Mandiri

  /** The label stored in `assessments.status` and shown to users. */
  function Label(s: Status): string {
    match s
    case SangatTertinggal => "Sangat Tertinggal"
    case Tertinggal => "Tertinggal"
    case Berkembang => "Berkembang"
    case Maju => "Maju"
    case Mandiri => "Mandiri"
  }

  /** Each status has its own label, so a stored label determines the status. */
  lemma LabelInjective(s: Status, t: Status)
    requires Label(s) == Label(t)
    ensures s == t
  {
  }
}
