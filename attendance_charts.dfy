/** The bar chart's rows: one per subject, in order, with the subject's name,
    its rounded percentage and its target. */
module AttendanceCharts {
  import opened Subjects
  import SubjectCard
  import Percent

  datatype ChartRow = ChartRow(subject: string, attendance: int, target: real)

  /** `subjects.map(subject => ({ subject: name, attendance: ..., target }))`. */
  function ChartData(subjects: seq<Subject>): (rows: seq<ChartRow>)
    ensures |rows| == |subjects|
    ensures forall i :: 0 <= i < |subjects| ==>
      rows[i].subject == subjects[i].name && rows[i].target == subjects[i].target
    ensures forall i :: 0 <= i < |subjects| ==>
      rows[i].attendance == SubjectCard.AttendancePercentage(subjects[i])
    ensures forall i :: 0 <= i < |subjects| && subjects[i].total == 0 ==> rows[i].attendance == 0
    ensures forall i :: 0 <= i < |subjects| && Consistent(subjects[i]) ==> 0 <= rows[i].attendance <= 100
  {
    seq(|subjects|, i requires 0 <= i < |subjects| =>
      ChartRow(
        subjects[i].name,
        Percent.RoundedPercent(subjects[i].attended, subjects[i].total),
        subjects[i].target))
  }
}
