/** The `useSubjects` hook: a per-user list of subjects, with the storage key
    it is saved under and the three list operations that only a logged-in
    user may perform. */
module SubjectStore {
  import opened Wrappers
  import opened Subjects

  /** JavaScript truthiness of the optional user id: present and non-empty. */
  predicate LoggedIn(userId: Option<string>): (b: bool)
    ensures !b <==> userId == None || userId == Some("")
  {
    userId.Some? && userId.value != ""
  }

  const KeyPrefix: string := "subjects_"

  /** `userId ? `subjects_${userId}` : 'subjects_guest'`. */
  function StorageKey(userId: Option<string>): (key: string)
    ensures |key| >= |KeyPrefix| && key[..|KeyPrefix|] == KeyPrefix
    ensures LoggedIn(userId) ==> key[|KeyPrefix|..] == userId.value
    ensures !LoggedIn(userId) ==> key[|KeyPrefix|..] == "guest"
  {
    if LoggedIn(userId) then KeyPrefix + userId.value else KeyPrefix + "guest"
  }

  /** Distinct logged-in users are saved under distinct keys. */
  lemma StorageKeysIsolateUsers(u: Option<string>, v: Option<string>)
    requires LoggedIn(u) && LoggedIn(v) && u != v
    ensures StorageKey(u) != StorageKey(v)
  {
  }

  /** A missing id and an empty id both select the guest key. */
  lemma EmptyIdIsGuest()
    ensures StorageKey(Some("")) == StorageKey(None) == "subjects_guest"
  {
  }

  /** The record `addSubject` appends: the form's name and target, the given
      id, and no classes yet. */
  function NewSubject(id: string, name: string, target: real): (s: Subject)
    ensures s.id == id && s.name == name && s.target == target
    ensures s.attended == 0 && s.total == 0
  {
    Subject(id, name, 0, 0, target)
  }

  /** `prev.map(s => s.id === id ? { ...s, ...newValues } : s)`. */
  function Merged(subjects: seq<Subject>, id: string, patch: SubjectPatch): (r: seq<Subject>)
    ensures |r| == |subjects|
    ensures forall i :: 0 <= i < |subjects| && subjects[i].id == id ==>
      r[i] == ApplyPatch(subjects[i], patch)
    ensures forall i :: 0 <= i < |subjects| && subjects[i].id != id ==> r[i] == subjects[i]
    ensures forall i :: 0 <= i < |subjects| ==> r[i].id == subjects[i].id
  {
    seq(|subjects|, i requires 0 <= i < |subjects| =>
      if subjects[i].id == id then ApplyPatch(subjects[i], patch) else subjects[i])
  }

  /** `prev.filter(s => s.id !== id)`. */
  function Removed(subjects: seq<Subject>, id: string): (r: seq<Subject>)
    ensures |r| <= |subjects|
    ensures forall x :: x in r <==> x in subjects && x.id != id
  {
    if |subjects| == 0 then []
    else if subjects[0].id == id then Removed(subjects[1..], id)
    else [subjects[0]] + Removed(subjects[1..], id)
  }

  /** Filtering distributes over concatenation: the entries that remain keep
      their relative order. */
  lemma {:induction false} RemovedOfConcat(a: seq<Subject>, b: seq<Subject>, id: string)
    ensures Removed(a + b, id) == Removed(a, id) + Removed(b, id)
  {
    if |a| > 0 {
      assert (a + b)[0] == a[0];
      assert (a + b)[1..] == a[1..] + b;
      RemovedOfConcat(a[1..], b, id);
      if a[0].id == id {
        calc {
          Removed(a + b, id);
          Removed(a[1..] + b, id);
          Removed(a[1..], id) + Removed(b, id);
          Removed(a, id) + Removed(b, id);
        }
      } else {
        calc {
          Removed(a + b, id);
          [a[0]] + Removed(a[1..] + b, id);
          [a[0]] + (Removed(a[1..], id) + Removed(b, id));
          ([a[0]] + Removed(a[1..], id)) + Removed(b, id);
          Removed(a, id) + Removed(b, id);
        }
      }
    } else {
      assert a + b == b;
    }
  }

  /** Deleting an id that no entry carries changes nothing. */
  lemma {:induction false} RemoveAbsentIsIdentity(subjects: seq<Subject>, id: string)
    requires forall i :: 0 <= i < |subjects| ==> subjects[i].id != id
    ensures Removed(subjects, id) == subjects
  {
    if |subjects| > 0 {
      RemoveAbsentIsIdentity(subjects[1..], id);
      assert [subjects[0]] + subjects[1..] == subjects;
    }
  }

  /** Every entry carrying the id is removed, so deleting twice is deleting once. */
  lemma RemoveIdempotent(subjects: seq<Subject>, id: string)
    ensures Removed(Removed(subjects, id), id) == Removed(subjects, id)
  {
  }

  /** Updating an id that no entry carries changes nothing. */
  lemma UpdateAbsentIsIdentity(subjects: seq<Subject>, id: string, patch: SubjectPatch)
    requires forall i :: 0 <= i < |subjects| ==> subjects[i].id != id
    ensures Merged(subjects, id, patch) == subjects
  {
  }

  /** Ids survive an update, so repeating it changes nothing more. */
  lemma UpdateIdempotent(subjects: seq<Subject>, id: string, patch: SubjectPatch)
    ensures Merged(Merged(subjects, id, patch), id, patch) == Merged(subjects, id, patch)
  {
  }

  /** Number of entries carrying the id. */
  function CountId(subjects: seq<Subject>, id: string): nat
  {
    if |subjects| == 0 then 0
    else (if subjects[0].id == id then 1 else 0) + CountId(subjects[1..], id)
  }

  /** Deleting removes exactly the entries that carry the id, all of them
      when timestamps collide. */
  lemma {:induction false} RemovedLength(subjects: seq<Subject>, id: string)
    ensures |Removed(subjects, id)| == |subjects| - CountId(subjects, id)
  {
    if |subjects| > 0 {
      RemovedLength(subjects[1..], id);
    }
  }

  /** An update that only ever writes consistent records keeps the list
      consistent, and so do appending a new subject and deleting. */
  lemma OperationsKeepConsistent(subjects: seq<Subject>, id: string, patch: SubjectPatch,
                                 newId: string, name: string, target: real)
    requires AllConsistent(subjects)
    requires forall s: Subject :: Consistent(ApplyPatch(s, patch))
    ensures AllConsistent(Merged(subjects, id, patch))
    ensures AllConsistent(subjects + [NewSubject(newId, name, target)])
    ensures AllConsistent(Removed(subjects, id))
  {
  }

  /** The hook's state once its loading effect has run. The list is a field
      that each operation replaces, as `setSubjects` does. */
  class Store {
    const userId: Option<string>
    var subjects: seq<Subject>

    /** `loaded` is what the browser's storage held under the user's key (or
        the empty list when nothing was stored or it did not parse); a guest
        always starts empty. */
    constructor (userId: Option<string>, loaded: seq<Subject>)
      ensures this.userId == userId
      ensures subjects == if LoggedIn(userId) then loaded else []
    {
      this.userId := userId;
      subjects := if LoggedIn(userId) then loaded else [];
    }

    /** `addSubject`: appends one new subject, or does nothing for a guest. */
    method AddSubject(name: string, target: real, id: string)
      modifies this
      ensures LoggedIn(userId) ==> subjects == old(subjects) + [NewSubject(id, name, target)]
      ensures !LoggedIn(userId) ==> subjects == old(subjects)
    {
      if !LoggedIn(userId) {
        return;
      }
      subjects := subjects + [NewSubject(id, name, target)];
    }

    /** `updateSubject`: merges the patch into every entry with the id, or
        does nothing for a guest. */
    method UpdateSubject(id: string, newValues: SubjectPatch)
      modifies this
      ensures LoggedIn(userId) ==> subjects == Merged(old(subjects), id, newValues)
      ensures !LoggedIn(userId) ==> subjects == old(subjects)
    {
      if !LoggedIn(userId) {
        return;
      }
      subjects := Merged(subjects, id, newValues);
    }

    /** `deleteSubject`: drops every entry with the id, or does nothing for
        a guest. */
    method DeleteSubject(id: string)
      modifies this
      ensures LoggedIn(userId) ==> subjects == Removed(old(subjects), id)
      ensures !LoggedIn(userId) ==> subjects == old(subjects)
    {
      if !LoggedIn(userId) {
        return;
      }
      subjects := Removed(subjects, id);
    }
  }
}
