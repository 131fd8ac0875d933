/** The `Subject` record shared by the hook, the cards, the chart and the
    dashboard, and the partial update `{ ...s, ...newValues }` that
    `updateSubject` applies to it. */
module Subjects {
  import opened Wrappers

  /** One tracked course. The counts only ever start at 0 and grow by one,
      so they are naturals; the target is whatever number the add-subject
      form accepted. */
  datatype Subject = Subject(id: string, name: string, attended: nat, total: nat, target: real)

  /** `Partial<Omit<Subject, 'id'>>`: every field but the id, each optional.
      `None` is a key that the update object does not carry. */
  datatype SubjectPatch = SubjectPatch(
    name: Option<string>,
    attended: Option<nat>,
    total: Option<nat>,
    target: Option<real>)

  /** A subject whose counts make sense: never more attended than held. */
  predicate Consistent(s: Subject) {
    s.attended <= s.total
  }

  /** A list whose every entry keeps `attended <= total`. */
  predicate AllConsistent(subjects: seq<Subject>) {
    forall i :: 0 <= i < |subjects| ==> Consistent(subjects[i])
  }

  /** `{ ...s, ...newValues }`: the fields the patch carries replace those of
      `s`; the others, and the id in every case, are kept. */
  function ApplyPatch(s: Subject, p: SubjectPatch): (r: Subject)
    ensures r.id == s.id
    ensures r.name == (match p.name case Some(v) => v case None => s.name)
    ensures r.attended == (match p.attended case Some(v) => v case None => s.attended)
    ensures r.total == (match p.total case Some(v) => v case None => s.total)
    ensures r.target == (match p.target case Some(v) => v case None => s.target)
  {
    Subject(
      s.id,
      if p.name.Some? then p.name.value else s.name,
      if p.attended.Some? then p.attended.value else s.attended,
      if p.total.Some? then p.total.value else s.total,
      if p.target.Some? then p.target.value else s.target)
  }

  /** Applying a patch twice is the same as applying it once. */
  lemma ApplyPatchIdempotent(s: Subject, p: SubjectPatch)
    ensures ApplyPatch(ApplyPatch(s, p), p) == ApplyPatch(s, p)
  {
  }
}
