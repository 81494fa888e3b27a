/**
 * The entities of the substitution system. Rows refer to each other by
 * integer primary keys; the many-to-many relations are sets of keys.
 */
module Models {
  import opened Common
  import opened Text
  import opened Time

  /** A qualification a lecturer can hold ("Q1", "Q2", ...). Its code is unique. */
  datatype Qualification = Qualification(code: string, name: string)

  /** A subject; the qualifications it requires are keys of Qualification rows. */
  datatype Subject = Subject(code: string, name: string, requiredQualifications: set<int>)

  /**
   * A lecturer with the qualifications held, the subjects they may teach and
   * their weekly limits. A limit of 0 means "no limit" wherever the source
   * reads it as falsy; the hours limit is a float in the source, a real here.
   */
  datatype Lecturer = Lecturer(
    firstName: string,
    lastName: string,
    email: string,
    qualifications: set<int>,
    subjects: set<int>,
    maxSubstitutionsPerWeek: int,
    maxHoursPerWeek: real)

  /** A scheduled class session; start and end are minutes (see module Time). */
  datatype Session = Session(
    id: int,
    subject: int,
    lecturer: int,
    start: int,
    end: int,
    needsSubstitution: bool)

  function Duration(s: Session): int {
    s.end - s.start
  }

  /**
   * The weekly substitution limit: 0 means no limit. The source writes it
   * both as `(limit == 0) or (after <= limit)` and as
   * `not (limit and after > limit)`; the two are the same test.
   */
  predicate WithinSubstitutionLimit(after: int, limit: int) {
    limit == 0 || after <= limit
  }

  /** The weekly hours limit on a load given in minutes: 0.0 means no limit. */
  predicate WithinHoursLimit(minutes: int, limit: real) {
    limit == 0.0 || Hours(minutes) <= limit
  }

  /** "code – name", the way subjects are listed next to a lecturer or a qualification. */
  function SubjectItem(s: Subject): string {
    s.code + " – " + s.name
  }

  const DefaultMaxSubstitutionsPerWeek: int := 3
  const DefaultMaxHoursPerWeek: real := 20.0

  /** A lecturer created with only the required fields gets the column defaults. */
  function NewLecturer(firstName: string, lastName: string, email: string): (l: Lecturer)
    ensures l.firstName == firstName && l.lastName == lastName && l.email == email
    ensures l.qualifications == {} && l.subjects == {}
    ensures l.maxSubstitutionsPerWeek == 3 && l.maxHoursPerWeek == 20.0
  {
    Lecturer(firstName, lastName, email, {}, {}, DefaultMaxSubstitutionsPerWeek, DefaultMaxHoursPerWeek)
  }

  /** `Qualification.__str__`: code, an en dash, name. */
  function QualificationStr(q: Qualification): (s: string)
    ensures |s| == |q.code| + 3 + |q.name|
    ensures s[..|q.code|] == q.code && s[|q.code|..|q.code| + 3] == " – " && s[|q.code| + 3..] == q.name
  {
    q.code + " – " + q.name
  }

  /** `Subject.__str__`. */
  function SubjectStr(s: Subject): (t: string)
    ensures |t| == |s.code| + 2 + |s.name|
    ensures t[..|s.code|] == s.code && t[|s.code|..|s.code| + 2] == ": " && t[|s.code| + 2..] == s.name
  {
    s.code + ": " + s.name
  }

  /** `Lecturer.__str__`: first and last name around one space. */
  function LecturerStr(l: Lecturer): (s: string)
    ensures |s| == |l.firstName| + 1 + |l.lastName|
    ensures s[|l.firstName|] == ' '
    ensures s[..|l.firstName|] == l.firstName && s[|l.firstName| + 1..] == l.lastName
  {
    l.firstName + " " + l.lastName
  }

  /** What `Substitution.__str__` shows as the substitute: the lecturer, or "BRAK". */
  function SubstituteLabel(sub: Option<Lecturer>): (t: string)
    ensures t == "BRAK" <==> sub.None?
    ensures sub.Some? ==> t == LecturerStr(sub.value)
  {
    match sub
    case None => "BRAK"
    case Some(l) =>
      var t := LecturerStr(l);
      assert t != "BRAK" by {
        if |t| == 4 {
          assert "BRAK"[|l.firstName|] != ' ';
        }
      }
      t
  }

  /** `Substitution.__str__` for the substitution of session `sessionId`. */
  function SubstitutionStr(sessionId: nat, sub: Option<Lecturer>): (s: string)
    ensures var id := NatToString(sessionId); var shown := SubstituteLabel(sub);
      && |s| == 11 + |id| + 4 + |shown|
      && s[..11] == "Zastępstwo("
      && s[11..11 + |id|] == id && ParseNat(s[11..11 + |id|]) == sessionId
      && s[11 + |id|..11 + |id| + 4] == ") → "
      && s[|s| - |shown|..] == shown
  {
    ParseNatToString(sessionId);
    "Zastępstwo(" + NatToString(sessionId) + ") → " + SubstituteLabel(sub)
  }
}
