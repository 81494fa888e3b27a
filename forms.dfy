/**
 * The rules of forms.py: the validation of `ClassSessionForm.clean`, the
 * qualification → subjects index `LecturerForm.__init__` builds, and the two
 * checkbox labels of a qualification (the lecturer form's, which lists the
 * subjects, and the subject form's, which is the code alone).
 */
module Forms {
  import opened Common
  import opened Text
  import opened Time
  import opened Models
  import opened Queries

  /** The cleaned fields of a ClassSessionForm; a field that did not validate is None. */
  datatype SessionInput = SessionInput(
    subject: Option<int>,
    lecturer: Option<int>,
    start: Option<int>,
    end: Option<int>,
    needsSubstitution: bool)

  /** The two ValidationErrors `clean` raises. */
  datatype FormError = EndNotAfterStart | LecturerBusy

  /** The conflict query of `clean`: the lecturer's own sessions overlapping [start, end). */
  function BusyQuery(l: int, start: int, end: int): Query {
    And(LecturerIs(l), OverlapsRange(start, end))
  }

  /** `ClassSessionForm.clean` against the session table ss; the time-zone step is not modelled. */
  function Clean(ss: seq<Session>, input: SessionInput): Result<SessionInput, FormError> {
    if input.start.Some? && input.end.Some? && input.end.value <= input.start.value then
      Failure(EndNotAfterStart)
    else if input.lecturer.Some? && input.start.Some? && input.end.Some?
            && |Filter(ss, map[], BusyQuery(input.lecturer.value, input.start.value, input.end.value))| > 0 then
      Failure(LecturerBusy)
    else Success(input)
  }

  /**
   * What `clean` decides: an end not after the start is refused first; then
   * a lecturer with an own session strictly overlapping the new times
   * (sessions that only touch do not count, substitutions play no part); any
   * other input is returned unchanged.
   */
  lemma CleanVerdict(ss: seq<Session>, input: SessionInput)
    ensures var r := Clean(ss, input);
      var reversed := input.start.Some? && input.end.Some? && input.end.value <= input.start.value;
      var busy := input.lecturer.Some? && input.start.Some? && input.end.Some?
                  && exists x :: (x in ss && x.lecturer == input.lecturer.value
                                  && x.start < input.end.value && x.end > input.start.value);
      && (r == Failure(EndNotAfterStart) <==> reversed)
      && (r == Failure(LecturerBusy) <==> !reversed && busy)
      && (r == Success(input) <==> !reversed && !busy)
      && (r.Success? ==> r.value == input)
  {
    if input.lecturer.Some? && input.start.Some? && input.end.Some? {
      var q := BusyQuery(input.lecturer.value, input.start.value, input.end.value);
      FilterMembership(ss, map[], q);
      FilterEmpty(ss, map[], q);
      forall x ensures Matches(q, map[], x) <==> (x.lecturer == input.lecturer.value
                                                && x.start < input.end.value && x.end > input.start.value) {
        assert Matches(LecturerIs(input.lecturer.value), map[], x) <==> x.lecturer == input.lecturer.value;
      }
    }
  }

  /**
   * Saving an existing session through the form again collides with the
   * session itself: the conflict query does not leave the edited row out.
   */
  lemma CleanEditCollidesWithItself(ss: seq<Session>, s: Session)
    requires s in ss && s.start < s.end
    ensures Clean(ss, SessionInput(Some(s.subject), Some(s.lecturer), Some(s.start), Some(s.end), s.needsSubstitution))
            == Failure(LecturerBusy)
  {
    CleanVerdict(ss, SessionInput(Some(s.subject), Some(s.lecturer), Some(s.start), Some(s.end), s.needsSubstitution));
    assert s.start < s.end && s.end > s.start;
  }

  /** The subjects requiring q, as "code – name", in table order. */
  function SubjectsRequiring(subjects: seq<Subject>, q: int): seq<string> {
    if subjects == [] then []
    else
      var last := subjects[|subjects| - 1];
      SubjectsRequiring(subjects[..|subjects| - 1], q)
        + (if q in last.requiredQualifications then [SubjectItem(last)] else [])
  }

  /** `qual_to_subjects.get(q, [])` */
  function Lookup(m: map<int, seq<string>>, q: int): seq<string> {
    if q in m then m[q] else []
  }

  /** The inner loop: the subject's label is appended under each qualification it requires. */
  method AppendUnderEach(m: map<int, seq<string>>, subj: Subject) returns (m': map<int, seq<string>>)
    ensures forall q :: Lookup(m', q)
                        == Lookup(m, q) + (if q in subj.requiredQualifications then [SubjectItem(subj)] else [])
  {
    m' := m;
    var rest := subj.requiredQualifications;
    while rest != {}
      invariant rest <= subj.requiredQualifications
      invariant forall q :: Lookup(m', q)
                  == Lookup(m, q) + (if q in subj.requiredQualifications && q !in rest then [SubjectItem(subj)] else [])
      decreases |rest|
    {
      if forall x :: x !in rest { assert false; }
      var k :| k in rest;
      m' := m'[k := Lookup(m', k) + [SubjectItem(subj)]];
      rest := rest - {k};
    }
  }

  /**
   * The nested loops of `LecturerForm.__init__`: for each subject, in table
   * order, its label is appended under every qualification it requires.
   */
  method BuildQualToSubjects(subjects: seq<Subject>) returns (m: map<int, seq<string>>)
    ensures forall q :: Lookup(m, q) == SubjectsRequiring(subjects, q)
  {
    m := map[];
    for i := 0 to |subjects|
      invariant forall q :: Lookup(m, q) == SubjectsRequiring(subjects[..i], q)
    {
      assert subjects[..i + 1][..i] == subjects[..i];
      m := AppendUnderEach(m, subjects[i]);
    }
    assert subjects[..|subjects|] == subjects;
  }

  /** How many subjects a lecturer-form label lists by name. */
  const MaxListed: nat := 6

  /** The label of a qualification with no subject. */
  function NoSubjects(code: string): string {
    code + "\n(brak powiązanych przedmiotów)"
  }

  /** `"\n• " + "\n• ".join(xs)` for a non-empty xs: each item on its own bulleted line. */
  function Bullets(xs: seq<string>): string {
    if xs == [] then [] else Bullets(xs[..|xs| - 1]) + "\n• " + xs[|xs| - 1]
  }

  /** Python's `sep.join(xs)`. */
  function Join(sep: string, xs: seq<string>): string {
    if xs == [] then [] else if |xs| == 1 then xs[0] else Join(sep, xs[..|xs| - 1]) + sep + xs[|xs| - 1]
  }

  /** The bulleted list is the separator followed by the joined items. */
  lemma {:induction false} BulletsIsJoin(xs: seq<string>)
    requires xs != []
    ensures Bullets(xs) == "\n• " + Join("\n• ", xs)
    decreases |xs|
  {
    if |xs| > 1 {
      BulletsIsJoin(xs[..|xs| - 1]);
    }
  }

  /** `f" (+{n - MAX} więcej)" if n > MAX else ""` */
  function More(n: nat): string {
    if n > MaxListed then " (+" + NatToString(n - MaxListed) + " więcej)" else ""
  }

  /** `label_from_q`: the code, then the first six sorted subjects, then how many more there are. */
  function LabelFromQ(code: string, items: seq<string>): string {
    var sorted := SortStrings(items);
    if sorted == [] then NoSubjects(code)
    else code + Bullets(sorted[..Min(MaxListed, |sorted|)]) + More(|sorted|)
  }

  /** The subjects named in a label: the smallest six, in order. */
  function Listed(items: seq<string>): (shown: seq<string>)
    ensures |shown| == Min(MaxListed, |items|)
  {
    SortStrings(items)[..Min(MaxListed, |items|)]
  }

  /**
   * What a lecturer-form label says: with no subjects, the code and the
   * "no subjects" note; otherwise the code, at most six subjects in sorted
   * order (none of them after one left out), and the "more" note exactly
   * when some were left out.
   */
  lemma LabelFromQShape(code: string, items: seq<string>)
    ensures items == [] ==> LabelFromQ(code, items) == NoSubjects(code)
    ensures items != [] ==> LabelFromQ(code, items) == code + Bullets(Listed(items)) + More(|items|)
    ensures |Listed(items)| <= MaxListed && SortedStrings(Listed(items))
    ensures multiset(Listed(items)) <= multiset(items)
    ensures forall i, j :: 0 <= i < |Listed(items)| && MaxListed <= j < |items|
                           ==> StrLe(Listed(items)[i], SortStrings(items)[j])
    ensures multiset(SortStrings(items)) == multiset(items)
  {
    var sorted := SortStrings(items);
    SortedPrefix(sorted, Min(MaxListed, |items|));
    if items == [] {
      assert |sorted| == 0;
    }
  }

  /** The "more" note appears iff there are more than six subjects, and it gives back how many were left out. */
  lemma MoreCount(n: nat)
    ensures More(n) != "" <==> n > MaxListed
    ensures n > MaxListed ==> exists digits :: (IsDigits(digits) && ParseNat(digits) == n - MaxListed
                                                && More(n) == " (+" + digits + " więcej)")
  {
    if n > MaxListed {
      ParseNatToString(n - MaxListed);
      var digits := NatToString(n - MaxListed);
      assert IsDigits(digits) && ParseNat(digits) == n - MaxListed;
    }
  }

  /** `SubjectForm`'s checkbox label: the qualification code only. */
  function SubjectFormLabel(q: Qualification): string {
    q.code
  }

  /** The subject form's label is the start of the lecturer form's label for the same qualification, and shorter. */
  lemma SubjectLabelPrefixesLecturerLabel(q: Qualification, items: seq<string>)
    ensures var short, long := SubjectFormLabel(q), LabelFromQ(q.code, items);
      |short| < |long| && long[..|short|] == short
  {
    var sorted := SortStrings(items);
    if sorted != [] {
      var b := Bullets(sorted[..Min(MaxListed, |sorted|)]);
      assert b != [] by {
        var xs := sorted[..Min(MaxListed, |sorted|)];
        assert |xs| > 0;
      }
      assert LabelFromQ(q.code, items) == q.code + (b + More(|sorted|));
    } else {
      assert LabelFromQ(q.code, items) == q.code + "\n(brak powiązanych przedmiotów)";
    }
  }
}
