/** The subject card: its rounded percentage, the "below target" flag that
    colours its progress bar, and the patches its Present and Absent buttons
    send to `updateSubject`. */
module SubjectCard {
  import opened Wrappers
  import opened Subjects
  import Percent

  /** `total > 0 ? Math.round(attended / total * 100) : 0`. */
  function AttendancePercentage(s: Subject): (r: int)
    ensures s.total == 0 ==> r == 0
    ensures s.total > 0 ==> r == (200 * s.attended + s.total) / (2 * s.total)
    ensures Consistent(s) ==> 0 <= r <= 100
  {
    Percent.RoundedPercent(s.attended, s.total)
  }

  /** `attendancePercentage < target && total > 0`: the ROUNDED value is
      compared, and a subject with no classes is never flagged. */
  function IsBelowTarget(s: Subject): (b: bool)
    ensures s.total == 0 ==> !b
  {
    (AttendancePercentage(s) as real) < s.target && s.total > 0
  }

  /** For any target, the flag is the integer condition
      `200 * attended + total < 2 * total * ceil(target)`: the shown value is
      an integer, so it is below the target exactly when it is below the
      target's ceiling, and the rounded quotient is below an integer `k`
      exactly when its dividend is below `2 * total * k`. */
  lemma BelowTargetExactly(s: Subject)
    ensures IsBelowTarget(s) <==>
      s.total > 0 && 200 * s.attended + s.total < 2 * s.total * Percent.Ceil(s.target)
  {
    if s.total > 0 {
      var k := Percent.Ceil(s.target);
      Percent.QuotientBelow(200 * s.attended + s.total, 2 * s.total, k);
      assert (AttendancePercentage(s) as real) < s.target <==> AttendancePercentage(s) < k;
    }
  }

  /** The flag looks at the rounded value: 1 class of 8 is 12.5%, shown as
      13%, and so is not below a 13% target. */
  lemma RoundedComparisonExample()
    ensures AttendancePercentage(Subject("s", "Physics", 1, 8, 13.0)) == 13
    ensures !IsBelowTarget(Subject("s", "Physics", 1, 8, 13.0))
  {
  }

  /** The update `handlePresent` sends: one more class held and attended. */
  function PresentPatch(s: Subject): (p: SubjectPatch)
    ensures ApplyPatch(s, p) == s.(attended := s.attended + 1, total := s.total + 1)
  {
    SubjectPatch(None, Some(s.attended + 1), Some(s.total + 1), None)
  }

  /** The update `handleAbsent` sends: one more class held, none attended. */
  function AbsentPatch(s: Subject): (p: SubjectPatch)
    ensures ApplyPatch(s, p) == s.(total := s.total + 1)
  {
    SubjectPatch(None, None, Some(s.total + 1), None)
  }

  /** Both buttons keep `attended <= total`, on the card's subject and on any
      other entry the patch is applied to. */
  lemma ButtonsKeepConsistent(s: Subject, other: Subject)
    requires Consistent(s)
    ensures Consistent(ApplyPatch(other, PresentPatch(s)))
    ensures other.attended <= s.total + 1 <==> Consistent(ApplyPatch(other, AbsentPatch(s)))
  {
  }

  /** Marking a class present never lowers the shown percentage. */
  lemma PresentNeverLowers(s: Subject)
    requires Consistent(s)
    ensures AttendancePercentage(ApplyPatch(s, PresentPatch(s))) >= AttendancePercentage(s)
  {
    if s.total > 0 {
      Percent.QuotientGrowsWithPresent(s.attended, s.total);
    }
  }

  /** Marking a class absent never raises the shown percentage. */
  lemma AbsentNeverRaises(s: Subject)
    requires Consistent(s)
    ensures AttendancePercentage(ApplyPatch(s, AbsentPatch(s))) <= AttendancePercentage(s)
  {
    if s.total > 0 {
      Percent.QuotientShrinksWithAbsent(s.attended, s.total);
    }
  }
}
