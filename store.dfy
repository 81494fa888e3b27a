/**
 * The database of the substitution application as one object: the five
 * tables of models.py and the operations that change them. `Preview` and
 * `Commit` are the two views that decide and record a substitution
 * (`api_substitution_preview`, `api_substitutions`); the delete operations
 * carry out the `on_delete` rules of the foreign keys, and the add
 * operations keep the unique codes. Row ids are handed in by the caller,
 * as the database allocates them.
 */
module Store {
  import opened Common
  import opened Time
  import opened Models
  import opened Queries
  import opened Views

  /** No two qualifications share a code (`unique=True`). */
  predicate UniqueQualificationCodes(quals: map<int, Qualification>) {
    forall a, b | a in quals && b in quals && quals[a].code == quals[b].code :: a == b
  }

  /** No two subjects share a code (`unique=True`). */
  predicate UniqueSubjectCodes(subjects: map<int, Subject>) {
    forall a, b | a in subjects && b in subjects && subjects[a].code == subjects[b].code :: a == b
  }

  /**
   * The database constraints on the tables: session ids are distinct; a
   * Substitution row belongs to an existing session (one row per session, by
   * the map); every foreign key and many-to-many link points at an existing
   * row; codes are unique.
   */
  ghost predicate TablesValid(quals: map<int, Qualification>, subjects: map<int, Subject>,
                              lecturers: map<int, Lecturer>, sessions: seq<Session>, subs: Substitutions)
  {
    && DistinctIds(sessions)
    && subs.Keys <= Ids(sessions)
    && (forall s | s in sessions :: s.subject in subjects && s.lecturer in lecturers)
    && (forall k | k in subs && subs[k].Some? :: subs[k].value in lecturers)
    && (forall l | l in lecturers :: lecturers[l].subjects <= subjects.Keys)
    && (forall l | l in lecturers :: lecturers[l].qualifications <= quals.Keys)
    && (forall k | k in subjects :: subjects[k].requiredQualifications <= quals.Keys)
    && UniqueQualificationCodes(quals)
    && UniqueSubjectCodes(subjects)
  }

  /** The lecturers' subject lists without subject kid. */
  function WithoutSubject(lecturers: map<int, Lecturer>, kid: int): (r: map<int, Lecturer>)
    ensures r.Keys == lecturers.Keys
    ensures forall l | l in r :: r[l].subjects == lecturers[l].subjects - {kid}
                                 && r[l].qualifications == lecturers[l].qualifications
  {
    map l | l in lecturers :: lecturers[l].(subjects := lecturers[l].subjects - {kid})
  }

  /** Deleting subject kid with its sessions and their Substitution rows keeps the tables consistent. */
  lemma DeleteSubjectValid(quals: map<int, Qualification>, subjects: map<int, Subject>,
                           lecturers: map<int, Lecturer>, sessions: seq<Session>, subs: Substitutions, kid: int)
    requires TablesValid(quals, subjects, lecturers, sessions, subs)
    ensures var kept := Filter(sessions, map[], Not(SubjectIs(kid)));
      TablesValid(quals, subjects - {kid}, WithoutSubject(lecturers, kid), kept,
                  map k | k in subs && k in Ids(kept) :: subs[k])
  {
    var kept := Filter(sessions, map[], Not(SubjectIs(kid)));
    FilterMembership(sessions, map[], Not(SubjectIs(kid)));
    FilterDistinct(sessions, map[], Not(SubjectIs(kid)));
    forall x | x in kept ensures x.subject != kid && x.subject in subjects && x.lecturer in lecturers {
      assert Matches(Not(SubjectIs(kid)), map[], x);
      assert Matches(SubjectIs(kid), map[], x) <==> x.subject == kid;
    }
  }

  /** The Substitution table after lecturer lid goes: rows of deleted sessions go, rows naming lid lose their substitute. */
  function WithoutSubstitute(subs: Substitutions, kept: seq<Session>, lid: int): (r: Substitutions)
    ensures r.Keys == subs.Keys * Ids(kept)
    ensures forall k | k in r :: r[k] != Some(lid) && (r[k] == subs[k] || (subs[k] == Some(lid) && r[k] == None))
  {
    map k | k in subs && k in Ids(kept) :: if subs[k] == Some(lid) then None else subs[k]
  }

  /** Deleting lecturer lid with their sessions (CASCADE) and emptying the rows naming them (SET_NULL) keeps the tables consistent. */
  lemma DeleteLecturerValid(quals: map<int, Qualification>, subjects: map<int, Subject>,
                            lecturers: map<int, Lecturer>, sessions: seq<Session>, subs: Substitutions, lid: int)
    requires TablesValid(quals, subjects, lecturers, sessions, subs)
    ensures var kept := Filter(sessions, map[], Not(LecturerIs(lid)));
      TablesValid(quals, subjects, lecturers - {lid}, kept, WithoutSubstitute(subs, kept, lid))
  {
    var kept := Filter(sessions, map[], Not(LecturerIs(lid)));
    FilterMembership(sessions, map[], Not(LecturerIs(lid)));
    FilterDistinct(sessions, map[], Not(LecturerIs(lid)));
    forall x | x in kept ensures x.lecturer != lid && x.subject in subjects && x.lecturer in lecturers {
      assert Matches(Not(LecturerIs(lid)), map[], x);
      assert Matches(LecturerIs(lid), map[], x) <==> x.lecturer == lid;
    }
  }

  /** Recording target as the substitute of an existing session keeps the tables consistent. */
  lemma UpsertValid(quals: map<int, Qualification>, subjects: map<int, Subject>,
                    lecturers: map<int, Lecturer>, sessions: seq<Session>, subs: Substitutions,
                    sid: int, target: Option<int>)
    requires TablesValid(quals, subjects, lecturers, sessions, subs)
    requires sid in Ids(sessions) && (target.Some? ==> target.value in lecturers)
    ensures TablesValid(quals, subjects, lecturers, sessions, subs[sid := target])
  {
  }

  /** Removing the Substitution row of a session keeps the tables consistent. */
  lemma ClearValid(quals: map<int, Qualification>, subjects: map<int, Subject>,
                   lecturers: map<int, Lecturer>, sessions: seq<Session>, subs: Substitutions, sid: int)
    requires TablesValid(quals, subjects, lecturers, sessions, subs)
    ensures TablesValid(quals, subjects, lecturers, sessions, subs - {sid})
  {
  }

  class Store {
    var quals: map<int, Qualification>
    var subjects: map<int, Subject>
    var lecturers: map<int, Lecturer>
    var sessions: seq<Session>
    var subs: Substitutions

    /** The tables satisfy the database constraints. */
    ghost predicate Valid()
      reads this
    {
      TablesValid(quals, subjects, lecturers, sessions, subs)
    }

    constructor ()
      ensures Valid()
      ensures quals == map[] && subjects == map[] && lecturers == map[]
      ensures sessions == [] && subs == map[]
    {
      quals, subjects, lecturers := map[], map[], map[];
      sessions, subs := [], map[];
    }

    /** Saving a new Qualification; false when the code is taken (the unique constraint). */
    method AddQualification(id: int, code: string, name: string) returns (saved: bool)
      requires Valid() && id !in quals
      modifies this
      ensures Valid()
      ensures saved <==> forall k | k in old(quals) :: old(quals)[k].code != code
      ensures quals == if saved then old(quals)[id := Qualification(code, name)] else old(quals)
      ensures subjects == old(subjects) && lecturers == old(lecturers)
      ensures sessions == old(sessions) && subs == old(subs)
    {
      if exists k | k in quals :: quals[k].code == code {
        return false;
      }
      quals := quals[id := Qualification(code, name)];
      saved := true;
    }

    /** Saving a new Subject with its required qualifications; false when the code is taken. */
    method AddSubject(id: int, code: string, name: string, required: set<int>) returns (saved: bool)
      requires Valid() && id !in subjects && required <= quals.Keys
      modifies this
      ensures Valid()
      ensures saved <==> forall k | k in old(subjects) :: old(subjects)[k].code != code
      ensures subjects == if saved then old(subjects)[id := Subject(code, name, required)] else old(subjects)
      ensures quals == old(quals) && lecturers == old(lecturers)
      ensures sessions == old(sessions) && subs == old(subs)
    {
      if exists k | k in subjects :: subjects[k].code == code {
        return false;
      }
      subjects := subjects[id := Subject(code, name, required)];
      saved := true;
    }

    /** Saving a new Lecturer: no links yet, and the default limits. */
    method AddLecturer(id: int, firstName: string, lastName: string, email: string)
      requires Valid() && id !in lecturers
      modifies this
      ensures Valid()
      ensures lecturers == old(lecturers)[id := NewLecturer(firstName, lastName, email)]
      ensures lecturers[id].maxSubstitutionsPerWeek == 3 && lecturers[id].maxHoursPerWeek == 20.0
      ensures quals == old(quals) && subjects == old(subjects)
      ensures sessions == old(sessions) && subs == old(subs)
    {
      lecturers := lecturers[id := NewLecturer(firstName, lastName, email)];
    }

    /**
     * The lecturer form saved on an existing lecturer: names, e-mail, the
     * subjects they may teach (chosen among existing subjects) and both
     * limits are replaced; the qualifications, which the form does not show,
     * stay.
     */
    method EditLecturer(lid: int, firstName: string, lastName: string, email: string,
                        chosen: set<int>, maxSubstitutions: int, maxHours: real)
      requires Valid() && lid in lecturers
      requires chosen <= subjects.Keys
      modifies this
      ensures Valid()
      ensures lecturers == old(lecturers)[lid := Lecturer(firstName, lastName, email,
                 old(lecturers)[lid].qualifications, chosen, maxSubstitutions, maxHours)]
      ensures quals == old(quals) && subjects == old(subjects)
      ensures sessions == old(sessions) && subs == old(subs)
    {
      var edited := lecturers[lid].(firstName := firstName, lastName := lastName, email := email,
                                    subjects := chosen,
                                    maxSubstitutionsPerWeek := maxSubstitutions, maxHoursPerWeek := maxHours);
      lecturers := lecturers[lid := edited];
    }

    /** Saving a new ClassSession row (validation is the form's, see module Forms). */
    method AddSession(s: Session)
      requires Valid() && s.id !in Ids(sessions)
      requires s.subject in subjects && s.lecturer in lecturers
      modifies this
      ensures Valid()
      ensures sessions == old(sessions) + [s]
      ensures quals == old(quals) && subjects == old(subjects) && lecturers == old(lecturers)
      ensures subs == old(subs)
    {
      forall i | 0 <= i < |sessions| ensures sessions[i].id != s.id {
        assert sessions[i] in sessions;
      }
      sessions := sessions + [s];
    }

    /**
     * `api_substitution_preview`: None when the session or the lecturer
     * does not exist (404), otherwise the report. Nothing is written.
     */
    method Preview(sid: int, lid: int) returns (r: Option<PreviewReport>)
      ensures r == match FindSession(sessions, sid)
                   case None => None
                   case Some(s) =>
                     if lid in lecturers then Some(PreviewOf(subjects, sessions, subs, lecturers[lid], lid, s))
                     else None
    {
      var found := FindSession(sessions, sid);
      if found.None? || lid !in lecturers {
        return None;
      }
      var s, lec := found.value, lecturers[lid];
      var canTeach := s.subject in lec.subjects;
      var slots := PreviewSlots(sessions, subs, lid);
      var isFree := IsFreeOf(slots, s.start, s.end);
      assert isFree == !Collides(slots, s);
      var normal := Filter(sessions, subs, And(And(LecturerIs(lid), NoSubstitution), InWeekOf(s.start)));
      var taken := Filter(sessions, subs, And(SubstituteIs(lid), InWeekOf(s.start)));
      var minutesBefore := TotalMinutes(normal + taken);
      var minutesAfter := minutesBefore + Duration(s);
      assert minutesAfter == PreviewWeekMinutes(sessions, subs, lid, s.start) + Duration(s);
      var subsAfter := SubstitutionsInWeek(sessions, subs, lid, s.start) + 1;
      var subsOk := lec.maxSubstitutionsPerWeek == 0 || subsAfter <= lec.maxSubstitutionsPerWeek;
      var hoursOk := lec.maxHoursPerWeek == 0.0 || Hours(minutesAfter) <= lec.maxHoursPerWeek;
      var items := set k | k in lec.subjects && k in subjects :: SubjectItem(subjects[k]);
      r := Some(PreviewReport(items, canTeach, isFree, subsAfter, lec.maxSubstitutionsPerWeek, subsOk,
                              minutesAfter, lec.maxHoursPerWeek, hoursOk,
                              canTeach && isFree && subsOk && hoursOk));
      assert r.value == PreviewOf(subjects, sessions, subs, lec, lid, s);
    }

    /**
     * The four checks of `api_substitutions` for lecturer l on session s, in
     * order, each by the loop or query the view runs; nothing is written.
     */
    method CheckCandidate(s: Session, l: int) returns (why: Option<Rejection>)
      requires l in lecturers
      ensures why == CommitCheck(sessions, subs, lecturers[l], l, s)
    {
      var lec := lecturers[l];
      if s.subject !in lec.subjects {
        return Some(NotAuthorized);
      }
      var slots := ActiveSlots(sessions, subs, l);
      var isFree := IsFreeOf(slots, s.start, s.end);
      assert isFree == !Collides(slots, s);
      if !isFree {
        return Some(CalendarCollision);
      }
      var (ws, we) := WeekBounds(s.start);
      var minutes := TotalMinutesOverlapping(slots, ws, we);
      minutes := minutes + Duration(s);
      assert minutes == CommitWeekMinutes(sessions, subs, l, s);
      var count := SubstitutionsInWeek(sessions, subs, l, s.start) + 1;
      if lec.maxSubstitutionsPerWeek != 0 && count > lec.maxSubstitutionsPerWeek {
        return Some(SubstitutionLimit);
      }
      if lec.maxHoursPerWeek != 0.0 && Hours(minutes) > lec.maxHoursPerWeek {
        return Some(HoursLimit);
      }
      why := None;
    }

    /**
     * `api_substitutions`: target None clears the session's Substitution row
     * (a success even when there is none); otherwise the four checks run in
     * order and the first failure is answered with nothing written; when all
     * pass the row for the session is created or its substitute replaced.
     */
    method Commit(sid: int, target: Option<int>) returns (r: CommitResult)
      requires Valid()
      modifies this
      ensures Valid()
      ensures r == CommitOutcome(old(sessions), old(subs), old(lecturers), sid, target)
      ensures subs == SubsAfterCommit(old(subs), sid, target, r)
      ensures quals == old(quals) && subjects == old(subjects) && lecturers == old(lecturers)
      ensures sessions == old(sessions)
    {
      var found := FindSession(sessions, sid);
      if found.None? {
        return SessionNotFound;
      }
      var s := found.value;
      if target.None? {
        ClearValid(quals, subjects, lecturers, sessions, subs, sid);
        subs := subs - {sid};
        return Cleared;
      }
      var l := target.value;
      if l !in lecturers {
        return LecturerNotFound;
      }
      var why := CheckCandidate(s, l);
      if why.Some? {
        return Rejected(why.value);
      }
      UpsertValid(quals, subjects, lecturers, sessions, subs, sid, target);
      subs := subs[sid := target];
      r := Saved;
    }

    /** Deleting a session; its Substitution row goes with it (CASCADE). */
    method DeleteSession(sid: int)
      requires Valid()
      modifies this
      ensures Valid()
      ensures sessions == Filter(old(sessions), map[], Not(IdIs(sid)))
      ensures subs == old(subs) - {sid}
      ensures quals == old(quals) && subjects == old(subjects) && lecturers == old(lecturers)
    {
      var kept := Filter(sessions, map[], Not(IdIs(sid)));
      FilterMembership(sessions, map[], Not(IdIs(sid)));
      FilterDistinct(sessions, map[], Not(IdIs(sid)));
      forall k | k in subs && k != sid ensures k in Ids(kept) {
        var x :| x in sessions && x.id == k;
        assert Matches(Not(IdIs(sid)), map[], x);
      }
      sessions, subs := kept, subs - {sid};
    }

    /**
     * Deleting a lecturer: their own sessions are deleted with their
     * Substitution rows (CASCADE); Substitution rows that name them as
     * substitute stay, with no substitute (SET_NULL).
     */
    method DeleteLecturer(lid: int)
      requires Valid()
      modifies this
      ensures Valid()
      ensures lecturers == old(lecturers) - {lid}
      ensures sessions == Filter(old(sessions), map[], Not(LecturerIs(lid)))
      ensures subs == WithoutSubstitute(old(subs), sessions, lid)
      ensures quals == old(quals) && subjects == old(subjects)
    {
      var kept := Filter(sessions, map[], Not(LecturerIs(lid)));
      DeleteLecturerValid(quals, subjects, lecturers, sessions, subs, lid);
      lecturers := lecturers - {lid};
      subs := WithoutSubstitute(subs, kept, lid);
      sessions := kept;
    }

    /**
     * Deleting a subject: its sessions are deleted with their Substitution
     * rows (CASCADE), and it leaves every lecturer's subject list.
     */
    method DeleteSubject(kid: int)
      requires Valid()
      modifies this
      ensures Valid()
      ensures subjects == old(subjects) - {kid}
      ensures sessions == Filter(old(sessions), map[], Not(SubjectIs(kid)))
      ensures subs == map k | k in old(subs) && k in Ids(sessions) :: old(subs)[k]
      ensures lecturers == WithoutSubject(old(lecturers), kid)
      ensures quals == old(quals)
    {
      var kept := Filter(sessions, map[], Not(SubjectIs(kid)));
      DeleteSubjectValid(quals, subjects, lecturers, sessions, subs, kid);
      subjects, lecturers := subjects - {kid}, WithoutSubject(lecturers, kid);
      subs := map k | k in subs && k in Ids(kept) :: subs[k];
      sessions := kept;
    }

    /** Deleting a qualification: it leaves every lecturer's and every subject's list. */
    method DeleteQualification(qid: int)
      requires Valid()
      modifies this
      ensures Valid()
      ensures quals == old(quals) - {qid}
      ensures lecturers == map l | l in old(lecturers) ::
                             old(lecturers)[l].(qualifications := old(lecturers)[l].qualifications - {qid})
      ensures subjects == map k | k in old(subjects) ::
                            old(subjects)[k].(requiredQualifications := old(subjects)[k].requiredQualifications - {qid})
      ensures sessions == old(sessions) && subs == old(subs)
    {
      quals := quals - {qid};
      lecturers := map l | l in lecturers :: lecturers[l].(qualifications := lecturers[l].qualifications - {qid});
      subjects := map k | k in subjects :: subjects[k].(requiredQualifications := subjects[k].requiredQualifications - {qid});
    }
  }
}
