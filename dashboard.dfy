/** The dashboard's overall attendance: the classes attended and the classes
    held are each summed over all subjects (two `reduce` folds from 0), and
    the pooled ratio is rounded like a single subject's. */
module Dashboard {
  import opened Subjects
  import Percent

  /** `subjects.reduce((acc, s) => acc + s.attended, 0)`: a left fold, so the
      last subject is added last. */
  function TotalAttended(subjects: seq<Subject>): (r: nat)
    ensures |subjects| == 0 ==> r == 0
    ensures |subjects| == 1 ==> r == subjects[0].attended
  {
    if |subjects| == 0 then 0
    else TotalAttended(subjects[..|subjects| - 1]) + subjects[|subjects| - 1].attended
  }

  /** `subjects.reduce((acc, s) => acc + s.total, 0)`. */
  function TotalClasses(subjects: seq<Subject>): (r: nat)
    ensures |subjects| == 0 ==> r == 0
    ensures |subjects| == 1 ==> r == subjects[0].total
  {
    if |subjects| == 0 then 0
    else TotalClasses(subjects[..|subjects| - 1]) + subjects[|subjects| - 1].total
  }

  /** `totalClasses > 0 ? Math.round(totalAttended / totalClasses * 100) : 0`. */
  function OverallAttendance(subjects: seq<Subject>): (r: int)
    ensures TotalClasses(subjects) == 0 ==> r == 0
    ensures TotalClasses(subjects) > 0 ==>
      r == (200 * TotalAttended(subjects) + TotalClasses(subjects)) / (2 * TotalClasses(subjects))
  {
    Percent.RoundedPercent(TotalAttended(subjects), TotalClasses(subjects))
  }

  /** Every subject's counts are included in the totals, and a total is 0
      exactly when that count is 0 for every subject. */
  lemma {:induction false} TotalsCountEverySubject(subjects: seq<Subject>)
    ensures forall i :: 0 <= i < |subjects| ==>
      subjects[i].attended <= TotalAttended(subjects) && subjects[i].total <= TotalClasses(subjects)
    ensures TotalAttended(subjects) == 0 <==> forall i :: 0 <= i < |subjects| ==> subjects[i].attended == 0
    ensures TotalClasses(subjects) == 0 <==> forall i :: 0 <= i < |subjects| ==> subjects[i].total == 0
  {
    if |subjects| > 0 {
      var init := subjects[..|subjects| - 1];
      TotalsCountEverySubject(init);
      assert forall i :: 0 <= i < |init| ==> subjects[i] == init[i];
    }
  }

  /** With no subjects there are no classes, and the dashboard shows 0. */
  lemma NoSubjectsShowZero()
    ensures OverallAttendance([]) == 0
  {
  }

  /** Pooled counts never attend more than they hold. */
  lemma {:induction false} TotalsConsistent(subjects: seq<Subject>)
    requires AllConsistent(subjects)
    ensures TotalAttended(subjects) <= TotalClasses(subjects)
  {
    if |subjects| > 0 {
      TotalsConsistent(subjects[..|subjects| - 1]);
    }
  }

  /** The overall figure is a percentage whenever every subject's counts are. */
  lemma OverallInRange(subjects: seq<Subject>)
    requires AllConsistent(subjects)
    ensures 0 <= OverallAttendance(subjects) <= 100
  {
    TotalsConsistent(subjects);
  }

  lemma {:induction false} TotalsOfConcat(a: seq<Subject>, b: seq<Subject>)
    ensures TotalAttended(a + b) == TotalAttended(a) + TotalAttended(b)
    ensures TotalClasses(a + b) == TotalClasses(a) + TotalClasses(b)
    decreases |b|
  {
    if |b| > 0 {
      var b' := b[..|b| - 1];
      assert (a + b)[..|a + b| - 1] == a + b';
      TotalsOfConcat(a, b');
    } else {
      assert a + b == a;
    }
  }

  /** Taking one entry out of the middle takes exactly its counts out of
      the totals. */
  lemma TotalsWithout(front: seq<Subject>, x: Subject, back: seq<Subject>)
    ensures TotalAttended(front + [x] + back) == TotalAttended(front + back) + x.attended
    ensures TotalClasses(front + [x] + back) == TotalClasses(front + back) + x.total
  {
    TotalsOfConcat(front + [x], back);
    TotalsOfConcat(front, [x]);
    TotalsOfConcat(front, back);
    assert |[x]| == 1;
  }

  /** The last subject of `a` occurs in any reordering `b` of it, and what
      remains of the two are again reorderings of each other. */
  lemma MatchLast(a: seq<Subject>, b: seq<Subject>) returns (i: nat)
    requires |a| > 0 && multiset(a) == multiset(b)
    ensures i < |b| && b[i] == a[|a| - 1]
    ensures multiset(a[..|a| - 1]) == multiset(b[..i] + b[i + 1..])
  {
    var x := a[|a| - 1];
    assert a == a[..|a| - 1] + [x];
    assert x in multiset(b);
    i :| 0 <= i < |b| && b[i] == x;
    assert b == b[..i] + [x] + b[i + 1..];
    assert multiset(a[..|a| - 1]) == multiset(a) - multiset{x};
    assert multiset(b[..i] + b[i + 1..]) == multiset(b) - multiset{x};
  }

  /** The folds do not depend on the order of the subjects. */
  lemma {:induction false} TotalsOfPermutation(a: seq<Subject>, b: seq<Subject>)
    requires multiset(a) == multiset(b)
    ensures TotalAttended(a) == TotalAttended(b)
    ensures TotalClasses(a) == TotalClasses(b)
    decreases |a|
  {
    if |a| > 0 {
      var i := MatchLast(a, b);
      TotalsOfPermutation(a[..|a| - 1], b[..i] + b[i + 1..]);
      TotalsWithout(b[..i], b[i], b[i + 1..]);
      assert b == b[..i] + [b[i]] + b[i + 1..];
    } else {
      assert b == [];
    }
  }

  /** Reordering the subjects does not change the overall figure. */
  lemma OverallIgnoresOrder(a: seq<Subject>, b: seq<Subject>)
    requires multiset(a) == multiset(b)
    ensures OverallAttendance(a) == OverallAttendance(b)
  {
    TotalsOfPermutation(a, b);
  }

  /** The figure pools the counts rather than averaging per-subject
      percentages: 1 of 1 and 0 of 3 pool to 25%, though the two subjects
      show 100% and 0%. */
  lemma PooledNotAveraged()
    ensures OverallAttendance([Subject("a", "A", 1, 1, 75.0), Subject("b", "B", 0, 3, 75.0)]) == 25
  {
    var s := [Subject("a", "A", 1, 1, 75.0), Subject("b", "B", 0, 3, 75.0)];
    assert s[..1][..0] == [];
    assert TotalAttended(s) == 1 && TotalClasses(s) == 4;
  }
}
